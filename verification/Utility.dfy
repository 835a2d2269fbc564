/** The string helpers of dmUtility.h and the set-query parsing of dmProviderDatabase.cpp. */
module Utility {
  import opened Sequences
  import opened Text

  /** The tokens so far, put together, are the text before the delimiter at `n - 1`. */
  ghost predicate Consumed(s: string, d: char, out: seq<string>, n: nat)
    requires n <= |s|
  {
    Plain(out, d) && if out == [] then n == 0 else n > 0 && s[n - 1] == d && Join(out, d) == s[..n - 1]
  }

  lemma TokenTaken(s: string, d: char, out: seq<string>, n1: nat, n2: nat)
    requires n1 <= n2 <= |s| && Consumed(s, d, out, n1) && d !in s[n1..n2]
    ensures Plain(out + [s[n1..n2]], d) && Join(out + [s[n1..n2]], d) == s[..n2]
    ensures n2 < |s| && s[n2] == d ==> Consumed(s, d, out + [s[n1..n2]], n2 + 1)
  {
    assert n2 + 1 - 1 == n2;
    if out == [] {
      assert out + [s[n1..n2]] == [s[n1..n2]] && s[n1..n2] == s[..n2];
    } else {
      JoinSnoc(out, s[n1..n2], d);
      assert s[..n1 - 1] + [d] + s[n1..n2] == s[..n2];
    }
  }

  /** The tokens put together are the text, and none holds the delimiter: they are its pieces. */
  method SplitString(s: string, delim: char) returns (out: seq<string>)
    ensures out == Split(s, delim)
  {
    out := [];
    var n1, n2 := 0, IndexFrom(s, delim, 0);
    while true
      invariant n1 <= n2 <= |s| && n2 == IndexFrom(s, delim, n1) && Consumed(s, delim, out, n1)
      decreases |s| - n1
    {
      TokenTaken(s, delim, out, n1, n2);
      out := out + [s[n1..n2]];
      if n2 == |s| { break; }
      n1 := n2 + 1;
      n2 := IndexFrom(s, delim, n1);
    }
    assert s[..n2] == s;
    SplitJoin(out, delim);
  }

  // ------------------------------------------------------------- multi-set values

  type Pair = (string, string)

  /** The pieces that are a name and a value. */
  function PairsOf(pieces: seq<string>): seq<Pair> {
    if pieces == [] then []
    else
      var args := Split(pieces[0], '=');
      (if |args| == 2 then [(args[0], args[1])] else []) + PairsOf(pieces[1..])
  }

  lemma {:induction false} PairsOfSnoc(pieces: seq<string>, piece: string)
    ensures PairsOf(pieces + [piece]) ==
              PairsOf(pieces) + (var args := Split(piece, '='); if |args| == 2 then [(args[0], args[1])] else [])
  {
    if pieces == [] {
      assert pieces + [piece] == [piece];
    } else {
      PairsOfSnoc(pieces[1..], piece);
      assert (pieces + [piece])[1..] == pieces[1..] + [piece];
    }
  }

  predicate Braced(s: string) { |s| >= 2 && s[0] == '{' && s[|s| - 1] == '}' }

  lemma BracedMeans(s: string)
    ensures Braced(s) <==> exists t: string :: s == "{" + t + "}"
  {
    if Braced(s) { assert s == "{" + s[1..|s| - 1] + "}"; }
  }

  method ParsePairs(pairs: seq<string>) returns (nameVals: seq<Pair>)
    ensures nameVals == PairsOf(pairs)
  {
    nameVals := [];
    var i := 0;
    while i < |pairs|
      invariant i <= |pairs| && nameVals == PairsOf(pairs[..i])
    {
      var pair := pairs[i];
      var args := SplitString(pair, '=');
      assert pairs[..i + 1] == pairs[..i] + [pair];
      PairsOfSnoc(pairs[..i], pair);
      if |args| == 2 { nameVals := nameVals + [(args[0], args[1])]; }
      i := i + 1;
    }
    assert pairs[..i] == pairs;
  }

  method ParseMultisetValue(s: string) returns (ok: bool, nameVals: seq<Pair>)
    ensures ok == Braced(s)
    ensures nameVals == if ok then PairsOf(Split(s[1..|s| - 1], ',')) else []
  {
    if !Braced(s) { return false, []; }
    var pairs := SplitString(s[1..|s| - 1], ',');
    nameVals := ParsePairs(pairs);
    ok := true;
  }

  function PrintPair(p: Pair): string { p.0 + "=" + p.1 }

  function PrintPairs(ps: seq<Pair>): (r: seq<string>)
    ensures |r| == |ps| && forall i :: 0 <= i < |ps| ==> r[i] == PrintPair(ps[i])
  {
    if ps == [] then [] else [PrintPair(ps[0])] + PrintPairs(ps[1..])
  }

  function Print(ps: seq<Pair>): string { "{" + Join(PrintPairs(ps), ',') + "}" }

  predicate Clean(p: Pair) { ',' !in p.0 && '=' !in p.0 && ',' !in p.1 && '=' !in p.1 }

  lemma PairParses(p: Pair)
    requires Clean(p)
    ensures Split(PrintPair(p), '=') == [p.0, p.1] && ',' !in PrintPair(p)
  {
    assert PrintPair(p) == p.0 + ['='] + p.1;
    SplitAtFirst(p.0, p.1, '=');
    assert Split(p.1, '=') == [p.1];
  }

  lemma {:induction false} PairsParse(ps: seq<Pair>)
    requires forall p :: p in ps ==> Clean(p)
    ensures PairsOf(PrintPairs(ps)) == ps && Plain(PrintPairs(ps), ',')
  {
    if ps == [] {
    } else {
      assert ps[0] in ps;
      PairParses(ps[0]);
      PairsParse(ps[1..]);
      assert PrintPairs(ps)[1..] == PrintPairs(ps[1..]);
    }
  }

  /** A printed list of clean pairs is read back as it was. */
  lemma MultisetRoundTrip(ps: seq<Pair>)
    requires forall p :: p in ps ==> Clean(p)
    ensures var s := Print(ps); Braced(s) && PairsOf(Split(s[1..|s| - 1], ',')) == ps
  {
    var s := Print(ps);
    assert s[1..|s| - 1] == Join(PrintPairs(ps), ',');
    PairsParse(ps);
    if ps == [] {
      assert Split("", ',') == [""] && Split("", '=') == [""];
    } else {
      SplitJoin(PrintPairs(ps), ',');
    }
  }

  // --------------------------------------------------------------------- set queries

  /** std::string::rfind('.'), the length standing for npos. */
  function LastDot(s: string): (i: nat)
    ensures i <= |s| && (i < |s| <==> '.' in s)
    ensures i < |s| ==> s[i] == '.' && '.' !in s[i + 1..]
  {
    if s == "" then 0
    else
      var n := |s| - 1;
      assert s == s[..n] + [s[n]];
      if s[n] == '.' then n
      else
        var k := LastDot(s[..n]);
        assert k < n ==> s[k + 1..] == s[..n][k + 1..] + [s[n]];
        if k < n then k else |s|
  }

  function TrimProperty(s: string): string { if LastDot(s) < |s| then s[..LastDot(s)] else s }

  /** Name={...} */
  predicate MultiSet(s: string) {
    var e := Find(s, '=');
    |s| > e + 1 && s[e + 1] == '{' && s[|s| - 1] == '}'
  }

  ghost predicate ReadsMultiSet(s: string, name: string, value: string) {
    '=' !in name && s == name + "={" + value + "}"
  }

  lemma MultiSetMeans(s: string)
    ensures MultiSet(s) <==> exists name: string, value: string :: ReadsMultiSet(s, name, value)
  {
    var e := Find(s, '=');
    if MultiSet(s) { assert ReadsMultiSet(s, s[..e], s[e + 2..|s| - 1]); }
    if name: string, value: string :| ReadsMultiSet(s, name, value) {
      assert s[..|name|] == name && s[|name|] == '=';
      IndexOfAt(s, '=', |name|);
    }
  }

  function TrimSetProperty(s: string): string { if MultiSet(s) then s[..Find(s, '=')] else TrimProperty(s) }

  /** `n` rounds of trimming. */
  function Trimmed(s: string, n: nat): string { if n == 0 then s else Trimmed(TrimSetProperty(s), n - 1) }

  /** The prefixes that cutting at the dots of the value goes through, `s` included, that
      read Name={...}. */
  predicate MultiSetAt(s: string, k: nat) {
    k <= |s| && (k == |s| || s[k] == '.') && Find(s, '=') < k && MultiSet(s[..k])
  }

  /** A dot in the name, or a value in braces up to its end or one of its dots. */
  ghost predicate CanTrim(s: string) {
    '.' in s[..Find(s, '=')] || exists k :: MultiSetAt(s, k)
  }

  lemma FindPrefix(s: string, d: char, k: nat)
    requires Find(s, d) < k <= |s|
    ensures Find(s[..k], d) == Find(s, d)
  {
    var i := Find(s, d);
    assert s[..k][..i] == s[..i];
    IndexOfAt(s[..k], d, i);
  }

  lemma {:induction false} LastDotIs(s: string, i: nat)
    requires i < |s| && s[i] == '.' && '.' !in s[i + 1..]
    ensures LastDot(s) == i
  {
    var n := |s| - 1;
    assert i < n ==> s[i + 1..][n - i - 1] == s[n];
    if i >= n {
    } else {
      assert s[..n][i + 1..] == s[i + 1..][..n - i - 1];
      LastDotIs(s[..n], i);
    }
  }

  lemma LastDotPrefix(s: string, k: nat)
    requires k <= |s| && '.' in s[..k] && '.' !in s[k..]
    ensures LastDot(s) == LastDot(s[..k])
  {
    var j := LastDot(s[..k]);
    assert s[j + 1..] == s[..k][j + 1..] + s[k..];
    LastDotIs(s, j);
  }

  lemma LastDotSuffix(s: string, k: nat)
    requires k <= |s| && '.' in s[k..]
    ensures LastDot(s) == k + LastDot(s[k..])
  {
    var j := LastDot(s[k..]);
    assert s[k..][j + 1..] == s[k + j + 1..];
    LastDotIs(s, k + j);
  }

  /** One round on Name={...} leaves the name. */
  lemma RoundOnMultiSet(s: string)
    requires '=' in s && MultiSet(s)
    ensures TrimSetProperty(s) == s[..Find(s, '=')] && '=' !in TrimSetProperty(s)
  {}

  /** Otherwise it cuts the value at its last dot, if it has one. */
  lemma RoundOnValueDot(s: string)
    requires '=' in s && !MultiSet(s) && '.' in s[Find(s, '=')..]
    ensures var e, i, t := Find(s, '='), LastDot(s), TrimSetProperty(s);
            e < i < |s| && t == s[..i] && '=' in t && Find(t, '=') == e
  {
    var e, i := Find(s, '='), LastDot(s);
    LastDotSuffix(s, e);
    assert s[e..][0] == '=';
    assert s[i] == '.' && s[e] == '=';
    FindPrefix(s, '=', i);
  }

  /** Or else the name, if that has one, and nothing at all if there is no dot. */
  lemma RoundOnNameDot(s: string)
    requires '=' in s && !MultiSet(s) && '.' !in s[Find(s, '=')..]
    ensures var name, t := s[..Find(s, '=')], TrimSetProperty(s);
            if '.' in name then t == name[..LastDot(name)] && '=' !in t else t == s
  {
    var e := Find(s, '=');
    assert s == s[..e] + s[e..];
    if '.' in s[..e] {
      LastDotPrefix(s, e);
      var i := LastDot(s);
      assert s[..e][..i] == s[..i];
    }
  }

  predicate EndsAt(s: string, n: nat) { n > 0 && '=' !in Trimmed(s, n) }

  /** `n` is the number of rounds the loop makes. */
  ghost predicate FirstEnd(s: string, n: nat) {
    EndsAt(s, n) && forall m {:trigger EndsAt(s, m)} :: 0 < m < n ==> !EndsAt(s, m)
  }

  lemma FirstEndStep(s: string, n: nat)
    requires '=' in TrimSetProperty(s) && FirstEnd(TrimSetProperty(s), n)
    ensures FirstEnd(s, n + 1) && Trimmed(s, n + 1) == Trimmed(TrimSetProperty(s), n)
  {
    var t := TrimSetProperty(s);
    assert Trimmed(s, 1) == Trimmed(t, 0) == t;
    forall m | 0 < m < n + 1 ensures !EndsAt(s, m) { if m > 1 { assert !EndsAt(t, m - 1); } }
  }

  /** The trimming loop comes to an end. */
  ghost predicate Ends(s: string) { exists n: nat :: EndsAt(s, n) }

  lemma {:induction false} StuckForever(s: string, n: nat)
    requires TrimSetProperty(s) == s
    ensures Trimmed(s, n) == s
  {
    if n == 0 {
    } else {
      StuckForever(s, n - 1);
    }
  }

  /** Cutting a dot of the value changes nothing about whether the text can be trimmed. */
  lemma CutKeepsCanTrim(s: string)
    requires '=' in s && !MultiSet(s) && '.' in s[Find(s, '=')..]
    ensures CanTrim(TrimSetProperty(s)) <==> CanTrim(s)
  {
    RoundOnValueDot(s);
    var e, i, t := Find(s, '='), LastDot(s), TrimSetProperty(s);
    assert t[..e] == s[..e];
    forall k: nat ensures MultiSetAt(t, k) <==> MultiSetAt(s, k) {
      if k <= i {
        assert s[..k] == t[..k];
      } else if k < |s| {
        assert s[i + 1..][k - i - 1] == s[k];
      } else if k == |s| {
        assert s[..k] == s;
      }
    }
  }

  /** The loop ends exactly when the text can be trimmed: there is a dot in the name, or a
      prefix the loop gets to reads Name={...}. A "Name=value" without either hangs it. */
  lemma {:induction false} EndsIffCanTrim(s: string)
    requires '=' in s
    ensures Ends(s) <==> CanTrim(s)
    decreases |s|
  {
    var e, t := Find(s, '='), TrimSetProperty(s);
    assert Trimmed(s, 1) == Trimmed(t, 0) == t;
    if MultiSet(s) {
      RoundOnMultiSet(s);
      assert EndsAt(s, 1);
      assert s[..|s|] == s && MultiSetAt(s, |s|);
    } else if '.' in s[e..] {
      RoundOnValueDot(s);
      CutKeepsCanTrim(s);
      EndsIffCanTrim(t);
      if n: nat :| EndsAt(t, n) { assert EndsAt(s, n + 1); }
      if n: nat :| EndsAt(s, n) { assert n > 1 && EndsAt(t, n - 1); }
    } else {
      RoundOnNameDot(s);
      NoDotNoBraces(s);
      if '.' in s[..e] {
        assert EndsAt(s, 1);
      } else {
        forall n: nat ensures !EndsAt(s, n) { StuckForever(s, n); }
      }
    }
  }

  lemma NoDotNoBraces(s: string)
    requires '=' in s && !MultiSet(s) && '.' !in s[Find(s, '=')..]
    ensures forall k :: !MultiSetAt(s, k)
  {
    forall k: nat ensures !MultiSetAt(s, k) {
      var e := Find(s, '=');
      if e < k < |s| { assert s[e..][k - e] == s[k]; }
      if k == |s| { assert s[..k] == s; }
    }
  }

  /** So "a=b" hangs it, and so does every name without a dot, whatever the value, as long as
      that does not open with a brace. */
  lemma Hangs(name: string, value: string)
    requires '=' !in name && '.' !in name && (value == "" || value[0] != '{')
    ensures var s := name + "=" + value; '=' in s && !Ends(s)
  {
    var s, e := name + "=" + value, |name|;
    assert s[..e] == name && s[e] == '=';
    IndexOfAt(s, '=', e);
    forall k: nat ensures !MultiSetAt(s, k) {
      if e < k <= |s| {
        FindPrefix(s, '=', k);
        if k > e + 1 { assert s[..k][e + 1] == value[0]; }
      }
    }
    EndsIffCanTrim(s);
  }

  /** For a value that does not open with a brace and a name with a dot, what is left is
      the name up to its last dot, and every round before still had the '='. */
  lemma {:induction false} TrimsToParent(s: string) returns (n: nat)
    requires '=' in s && '.' in s[..Find(s, '=')]
    requires |s| > Find(s, '=') + 1 ==> s[Find(s, '=') + 1] != '{'
    ensures FirstEnd(s, n)
    ensures var name := s[..Find(s, '=')]; Trimmed(s, n) == name[..LastDot(name)]
    decreases |s|
  {
    var e, t := Find(s, '='), TrimSetProperty(s);
    assert Trimmed(s, 1) == Trimmed(t, 0) == t;
    if '.' in s[e..] {
      RoundOnValueDot(s);
      assert t[..e] == s[..e];
      n := TrimsToParent(t);
      FirstEndStep(s, n);
      n := n + 1;
    } else {
      RoundOnNameDot(s);
      n := 1;
    }
  }

  /** The while block: trims until the '=' is gone; false when nothing is left. */
  method TrimToObject(data: string) returns (ok: bool, instance: string, ghost rounds: nat)
    requires '=' in data && CanTrim(data)
    ensures instance == Trimmed(data, rounds) && FirstEnd(data, rounds)
    ensures ok <==> rounds == 1 || instance != ""
  {
    instance := TrimSetProperty(data);
    rounds := 1;
    var tmpData := instance;
    assert Trimmed(data, 1) == Trimmed(instance, 0) == instance;
    RoundKeeps(data);
    while '=' in tmpData
      invariant rounds > 0 && tmpData == instance == Trimmed(data, rounds)
      invariant forall m {:trigger EndsAt(data, m)} :: 0 < m < rounds ==> !EndsAt(data, m)
      invariant '=' in tmpData ==> CanTrim(tmpData)
      invariant rounds > 1 ==> instance != ""
      decreases |tmpData|
    {
      assert !EndsAt(data, rounds);
      instance := TrimSetProperty(tmpData);
      TrimmedNext(data, rounds);
      RoundKeeps(tmpData);
      rounds := rounds + 1;
      if instance == "" { assert EndsAt(data, rounds); return false, instance, rounds; }
      tmpData := instance;
    }
    assert EndsAt(data, rounds);
    ok := true;
  }

  /** The Set case of setQueryString; `rounds` counts the calls of trimSetProperty. Texts
      that would hang the loop are left to EndsIffCanTrim. */
  method SetQueryString(data: string)
    returns (ok: bool, query: string, value: string, instance: string, ghost rounds: nat)
    requires '=' in data ==> CanTrim(data)
    ensures '=' !in data ==> !ok
    ensures '=' in data ==> query + "=" + value == data && '=' !in query
    ensures '=' in data ==> instance == Trimmed(data, rounds) && FirstEnd(data, rounds)
    ensures '=' in data ==> (ok <==> rounds == 1 || instance != "")
  {
    query, value, instance, rounds := "", "", "", 0;
    if '=' !in data { return false, query, value, instance, 0; }
    var position := Find(data, '=');
    query, value := data[..position], data[position + 1..];
    assert data == query + "=" + value;
    ok, instance, rounds := TrimToObject(data);
  }

  lemma {:induction false} TrimmedNext(s: string, n: nat)
    ensures Trimmed(s, n + 1) == TrimSetProperty(Trimmed(s, n))
  {
    if n == 0 {
    } else {
      TrimmedNext(TrimSetProperty(s), n - 1);
    }
  }

  /** A round on a text that can be trimmed shortens it, and what is left can be trimmed. */
  lemma RoundKeeps(s: string)
    requires '=' in s && CanTrim(s)
    ensures var t := TrimSetProperty(s); |t| < |s| && ('=' in t ==> CanTrim(t))
  {
    if MultiSet(s) {
      RoundOnMultiSet(s);
    } else if '.' in s[Find(s, '=')..] {
      RoundOnValueDot(s);
      CutKeepsCanTrim(s);
    } else {
      RoundOnNameDot(s);
      NoDotNoBraces(s);
    }
  }
}
