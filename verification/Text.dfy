/** Dotted names: cutting a string at a delimiter and putting it back together. */
module Text {
  import opened Sequences

  /** `std::string::find` with the text length standing for `npos`. */
  function Find(s: string, d: char): (i: nat)
    ensures i <= |s|
    ensures i < |s| <==> d in s
  {
    IndexOf(s, d)
  }

  function Split(s: string, d: char): (r: seq<string>)
    ensures |r| >= 1
    decreases |s|
  {
    var i := Find(s, d);
    if i == |s| then [s] else [s[..i]] + Split(s[i + 1..], d)
  }

  function Join(tokens: seq<string>, d: char): string {
    if tokens == [] then ""
    else if |tokens| == 1 then tokens[0]
    else tokens[0] + [d] + Join(tokens[1..], d)
  }

  ghost predicate Plain(tokens: seq<string>, d: char) {
    forall t :: t in tokens ==> d !in t
  }

  lemma {:induction false} JoinSplit(s: string, d: char)
    ensures Join(Split(s, d), d) == s
    ensures Plain(Split(s, d), d)
    decreases |s|
  {
    var i := Find(s, d);
    if i < |s| {
      JoinSplit(s[i + 1..], d);
      assert Split(s, d)[1..] == Split(s[i + 1..], d);
      assert s == s[..i] + [d] + s[i + 1..];
    }
  }

  lemma {:induction false} PieceChars(s: string, d: char, k: string, c: char)
    requires k in Split(s, d) && c in k
    ensures c in s
    decreases |s|
  {
    var i := Find(s, d);
    if i == |s| {
    } else if k == s[..i] {
      assert c in s[..i];
    } else {
      PieceChars(s[i + 1..], d, k, c);
    }
  }

  lemma {:induction false} SplitAtFirst(a: string, b: string, d: char)
    requires d !in a
    ensures Split(a + [d] + b, d) == [a] + Split(b, d)
  {
    var s := a + [d] + b;
    assert s[..|a|] == a && s[|a|] == d;
    IndexOfAt(s, d, |a|);
    var i := Find(s, d);
    assert s[..i] == a && s[i + 1..] == b;
  }

  lemma {:induction false} SplitJoin(tokens: seq<string>, d: char)
    requires tokens != [] && Plain(tokens, d)
    ensures Split(Join(tokens, d), d) == tokens
  {
    if |tokens| > 1 {
      SplitJoin(tokens[1..], d);
      SplitAtFirst(tokens[0], Join(tokens[1..], d), d);
    } else {
      assert tokens == [tokens[0]];
    }
  }

  /** Hence a dotted name determines its tokens. */
  lemma JoinInjective(a: seq<string>, b: seq<string>, d: char)
    requires a != [] && b != [] && Plain(a, d) && Plain(b, d)
    requires Join(a, d) == Join(b, d)
    ensures a == b
  {
    SplitJoin(a, d);
    SplitJoin(b, d);
  }

  lemma {:induction false} JoinSnoc(tokens: seq<string>, t: string, d: char)
    requires tokens != []
    ensures Join(tokens + [t], d) == Join(tokens, d) + [d] + t
  {
    if |tokens| == 1 {
      assert (tokens + [t])[1..] == [t];
    } else {
      assert (tokens + [t])[1..] == tokens[1..] + [t];
      JoinSnoc(tokens[1..], t, d);
      assert tokens[0] + [d] + (Join(tokens[1..], d) + [d] + t)
          == tokens[0] + [d] + Join(tokens[1..], d) + [d] + t;
    }
  }
}
