/** dmProviderDatabase.cpp: finding the provider an object path belongs to. */
module Provider {
  import opened Sequences
  import opened Text
  import opened Utility

  /** dmProviderInfo, as far as the walk looks at it. */
  datatype Info = Info(objectName: string, isList: bool)

  /** model_db. */
  type Database = map<string, Info>

  function Append(full: string, token: string): string { if full == "" then token else full + "." + token }

  /** The locals of the loop; `failed` once it has returned nullptr. */
  datatype State = State(fullName: string, isList: bool, provider: Option<Info>, isListItem: bool, failed: bool)

  const START := State("", false, None, false, false)

  function TakeName(db: Database, w: State, token: string): State {
    var full := Append(w.fullName, token);
    if full in db then State(full, db[full].isList, Some(db[full]), false, false)
    else if w.provider.Some? then State(full, false, None, false, true)
    else State(full, false, None, false, false)
  }

  function TakeToken(db: Database, w: State, token: string): State {
    if w.isList then w.(isList := false, isListItem := true) else TakeName(db, w, token)
  }

  function TakeTokens(db: Database, w: State, tokens: seq<string>): State
    decreases |tokens|
  {
    if tokens == [] || w.failed then w else TakeTokens(db, TakeToken(db, w, tokens[0]), tokens[1..])
  }

  // -------------------------------------------------------------- what it computes

  /** The tokens that are not row ids: the one after each list object is an id. */
  function Names(db: Database, full: string, isList: bool, tokens: seq<string>): seq<string>
    decreases |tokens|
  {
    if tokens == [] then []
    else if isList then Names(db, full, false, tokens[1..])
    else
      var full' := Append(full, tokens[0]);
      [tokens[0]] + Names(db, full', full' in db && db[full'].isList, tokens[1..])
  }

  function FullName(full: string, names: seq<string>): string
    decreases |names|
  {
    if names == [] then full else FullName(Append(full, names[0]), names[1..])
  }

  /** The name put together token by token is the names joined by dots. */
  lemma {:induction false} FullNameJoins(full: string, names: seq<string>)
    requires full != "" || (names != [] && names[0] != "")
    ensures FullName(full, names) == Join(if full == "" then names else [full] + names, '.')
    decreases |names|
  {
    if names == [] {
    } else {
      var full' := Append(full, names[0]);
      FullNameJoins(full', names[1..]);
      assert [names[0]] + names[1..] == names && ([full] + names)[1..] == names;
      assert ([full'] + names[1..])[1..] == names[1..];
    }
  }

  predicate FoundAt(db: Database, full: string, names: seq<string>, k: nat)
    requires k <= |names|
  {
    FullName(full, names[..k]) in db
  }

  /** Once a prefix of the names is an object of the database, all longer ones are. */
  ghost predicate NeverLeaves(db: Database, full: string, names: seq<string>) {
    forall j: nat, k: nat :: 0 < j < k <= |names| && FoundAt(db, full, names, j) ==> FoundAt(db, full, names, k)
  }

  /** The object all the names together name, unless the path leaves the database. */
  ghost function ProviderOf(db: Database, names: seq<string>): Option<Info> {
    var full := FullName("", names);
    if names != [] && full in db && NeverLeaves(db, "", names) then Some(db[full]) else None
  }

  /** The walk over names alone. */
  function Chain(db: Database, full: string, found: Option<Info>, names: seq<string>): Option<Info>
    decreases |names|
  {
    if names == [] then found
    else
      var full' := Append(full, names[0]);
      if full' in db then Chain(db, full', Some(db[full']), names[1..])
      else if found.Some? then None
      else Chain(db, full', None, names[1..])
  }

  lemma {:induction false} WalkIsChain(db: Database, w: State, tokens: seq<string>)
    requires !w.failed && (w.isList ==> w.provider.Some?)
    ensures TakeTokens(db, w, tokens).provider ==
              Chain(db, w.fullName, w.provider, Names(db, w.fullName, w.isList, tokens))
    decreases |tokens|
  {
    if tokens == [] {
    } else {
      var w' := TakeToken(db, w, tokens[0]);
      var names := Names(db, w.fullName, w.isList, tokens);
      if w.isList {
        WalkIsChain(db, w', tokens[1..]);
      } else {
        assert names[0] == tokens[0];
        if w'.failed {
          assert TakeTokens(db, w', tokens[1..]) == w';
        } else {
          WalkIsChain(db, w', tokens[1..]);
          assert names[1..] == Names(db, w'.fullName, w'.isList, tokens[1..]);
        }
      }
    }
  }

  lemma FoundTail(db: Database, full: string, names: seq<string>, k: nat)
    requires 0 < k <= |names|
    ensures FoundAt(db, full, names, k) <==> FoundAt(db, Append(full, names[0]), names[1..], k - 1)
  {
    assert names[..k][1..] == names[1..][..k - 1];
  }

  ghost predicate AllFound(db: Database, full: string, names: seq<string>) {
    forall k :: 0 < k <= |names| ==> FoundAt(db, full, names, k)
  }

  lemma AllFoundTail(db: Database, full: string, names: seq<string>)
    requires names != []
    ensures AllFound(db, full, names) <==>
              Append(full, names[0]) in db && AllFound(db, Append(full, names[0]), names[1..])
  {
    var full', rest := Append(full, names[0]), names[1..];
    forall k | 0 < k <= |names| ensures FoundAt(db, full, names, k) <==> FoundAt(db, full', rest, k - 1) {
      FoundTail(db, full, names, k);
    }
    assert FoundAt(db, full', rest, 0) <==> full' in db;
    if AllFound(db, full, names) {
      assert FoundAt(db, full, names, 1);
      forall k | 0 < k <= |rest| ensures FoundAt(db, full', rest, k) { assert FoundAt(db, full, names, k + 1); }
    }
  }

  /** After an object was found every further prefix has to be one. */
  lemma {:induction false} ChainFound(db: Database, full: string, found: Info, names: seq<string>)
    ensures var r := Chain(db, full, Some(found), names);
            if !AllFound(db, full, names) then r == None
            else if names == [] then r == Some(found)
            else FullName(full, names) in db && r == Some(db[FullName(full, names)])
    decreases |names|
  {
    if names == [] {
    } else {
      AllFoundTail(db, full, names);
      var full' := Append(full, names[0]);
      if full' in db {
        ChainFound(db, full', db[full'], names[1..]);
      }
    }
  }

  lemma NeverLeavesTail(db: Database, full: string, names: seq<string>)
    requires names != []
    ensures var full' := Append(full, names[0]);
            NeverLeaves(db, full, names) <==>
              if full' in db then AllFound(db, full', names[1..]) else NeverLeaves(db, full', names[1..])
  {
    var full', rest := Append(full, names[0]), names[1..];
    forall k | 0 < k <= |names| ensures FoundAt(db, full, names, k) <==> FoundAt(db, full', rest, k - 1) {
      FoundTail(db, full, names, k);
    }
    assert FoundAt(db, full', rest, 0) <==> full' in db;
    if NeverLeaves(db, full, names) {
      forall k: nat | 0 < k <= |rest| && full' in db ensures FoundAt(db, full', rest, k) {
        assert FoundAt(db, full, names, 1) && FoundAt(db, full, names, k + 1);
      }
      forall j: nat, k: nat | 0 < j < k <= |rest| && FoundAt(db, full', rest, j) ensures FoundAt(db, full', rest, k) {
        assert FoundAt(db, full, names, j + 1) && FoundAt(db, full, names, k + 1);
      }
    }
    if full' !in db && NeverLeaves(db, full', rest) {
      forall j: nat, k: nat | 0 < j < k <= |names| && FoundAt(db, full, names, j) ensures FoundAt(db, full, names, k) {
        assert FoundAt(db, full', rest, j - 1) && j > 1;
        assert FoundAt(db, full', rest, k - 1);
      }
    }
  }

  /** Nothing found yet: the walk ends on the object of the whole name, or on none. */
  lemma {:induction false} ChainMeans(db: Database, full: string, names: seq<string>)
    ensures Chain(db, full, None, names) ==
              if names != [] && FullName(full, names) in db && NeverLeaves(db, full, names)
              then Some(db[FullName(full, names)]) else None
    decreases |names|
  {
    if names == [] {
    } else {
      var full' := Append(full, names[0]);
      NeverLeavesTail(db, full, names);
      if full' in db {
        ChainFound(db, full', db[full'], names[1..]);
        if |names| > 1 { AllFoundWhole(db, full', names[1..]); }
      } else {
        ChainMeans(db, full', names[1..]);
      }
    }
  }

  lemma AllFoundWhole(db: Database, full: string, names: seq<string>)
    requires names != []
    ensures AllFound(db, full, names) ==> FullName(full, names) in db
  {
    assert names[..|names|] == names;
    assert AllFound(db, full, names) ==> FoundAt(db, full, names, |names|);
  }

  /** The path's provider is that of its names, row ids erased. */
  lemma ProviderIsOfNames(db: Database, p: string)
    ensures TakeTokens(db, START, Split(p, '.')).provider == ProviderOf(db, Names(db, "", false, Split(p, '.')))
  {
    WalkIsChain(db, START, Split(p, '.'));
    ChainMeans(db, "", Names(db, "", false, Split(p, '.')));
  }

  // ------------------------------------------------------------ paths with row ids

  /** Names with a row id, or none, after each. */
  type WithIds = seq<(string, Option<string>)>

  function NamesOf(path: WithIds): (r: seq<string>)
    ensures |r| == |path|
  {
    if path == [] then [] else [path[0].0] + NamesOf(path[1..])
  }

  function TokensOf(path: WithIds): seq<string> {
    if path == [] then []
    else [path[0].0] + (if path[0].1.Some? then [path[0].1.value] else []) + TokensOf(path[1..])
  }

  /** An id after each list object and after nothing else; the last may go without. */
  predicate IdsInPlace(db: Database, full: string, path: WithIds)
    decreases |path|
  {
    path == [] ||
    var full' := Append(full, path[0].0);
    var list := full' in db && db[full'].isList;
    && (path[0].1.Some? ==> list)
    && (|path| > 1 ==> (list ==> path[0].1.Some?))
    && IdsInPlace(db, full', path[1..])
  }

  lemma NameTaken(db: Database, full: string, name: string, rest: seq<string>)
    ensures var full' := Append(full, name);
            Names(db, full, false, [name] + rest) == [name] + Names(db, full', full' in db && db[full'].isList, rest)
  {
    assert ([name] + rest)[1..] == rest;
  }

  lemma IdTaken(db: Database, full: string, id: string, rest: seq<string>)
    ensures Names(db, full, true, [id] + rest) == Names(db, full, false, rest)
  {
    assert ([id] + rest)[1..] == rest;
  }

  /** Such a path has the names it was made of. */
  lemma {:induction false} NamesOfPath(db: Database, full: string, path: WithIds)
    requires IdsInPlace(db, full, path)
    ensures Names(db, full, false, TokensOf(path)) == NamesOf(path)
    decreases |path|
  {
    if path == [] {
    } else {
      var name, id, full', rest := path[0].0, path[0].1, Append(full, path[0].0), TokensOf(path[1..]);
      NamesOfPath(db, full', path[1..]);
      match id
      case Some(i) =>
        NameTaken(db, full, name, [i] + rest);
        IdTaken(db, full', i, rest);
        assert TokensOf(path) == [name] + ([i] + rest);
      case None =>
        NameTaken(db, full, name, rest);
        assert TokensOf(path) == [name] + rest;
        assert |path| == 1 ==> rest == [];
    }
  }

  lemma {:induction false} EndsInId(db: Database, w: State, path: WithIds)
    requires !w.isList && !w.failed && path != [] && IdsInPlace(db, w.fullName, path)
    ensures var r := TakeTokens(db, w, TokensOf(path));
            r.isListItem == (!r.failed && path[|path| - 1].1.Some?)
    decreases |path|
  {
    var tokens, rest := TokensOf(path), TokensOf(path[1..]);
    var w1 := TakeName(db, w, path[0].0);
    assert w1.fullName == Append(w.fullName, path[0].0);
    if path[0].1.Some? {
      assert tokens == [path[0].0, path[0].1.value] + rest;
      assert tokens[1..] == [path[0].1.value] + rest && tokens[1..][1..] == rest;
      var w2 := TakeToken(db, w1, path[0].1.value);
      assert TakeTokens(db, w1, tokens[1..]) == TakeTokens(db, w2, rest);
      if |path| > 1 { EndsInId(db, w2, path[1..]); }
    } else {
      assert tokens == [path[0].0] + rest && tokens[1..] == rest;
      if |path| > 1 && !w1.failed { EndsInId(db, w1, path[1..]); }
    }
  }

  /** With an id after each list object the provider is that of the path with the ids
      erased, and isListItem tells whether the path ends in one. */
  lemma IdsErased(db: Database, path: WithIds)
    requires path != [] && IdsInPlace(db, "", path)
    ensures var r := TakeTokens(db, START, TokensOf(path));
            && r.provider == ProviderOf(db, NamesOf(path))
            && r.isListItem == (!r.failed && path[|path| - 1].1.Some?)
  {
    NamesOfPath(db, "", path);
    WalkIsChain(db, START, TokensOf(path));
    ChainMeans(db, "", NamesOf(path));
    EndsInId(db, START, path);
  }

  // ---------------------------------------------------------------------- the loop

  lemma {:induction false} JoinConcat(a: seq<string>, b: seq<string>, d: char)
    requires a != [] && b != []
    ensures Join(a + b, d) == Join(a, d) + [d] + Join(b, d)
  {
    assert (a + b)[1..] == a[1..] + b;
    if |a| > 1 {
      JoinConcat(a[1..], b, d);
      assert a[0] + [d] + (Join(a[1..], d) + [d] + Join(b, d)) == a[0] + [d] + Join(a[1..], d) + [d] + Join(b, d);
    } else {
      assert a[1..] + b == b;
    }
  }

  /** The tokens taken so far begin the text's pieces. */
  lemma ConsumedBegins(s: string, d: char, out: seq<string>, n: nat)
    requires n <= |s| && out != [] && Consumed(s, d, out, n)
    ensures Split(s, d) == out + Split(s[n..], d)
  {
    var rest := Split(s[n..], d);
    JoinSplit(s[n..], d);
    JoinConcat(out, rest, d);
    assert s == s[..n - 1] + [d] + s[n..];
    SplitJoin(out + rest, d);
  }

  lemma {:induction false} TakeTokensSnoc(db: Database, w: State, tokens: seq<string>, token: string)
    requires !TakeTokens(db, w, tokens).failed
    ensures TakeTokens(db, w, tokens + [token]) == TakeToken(db, TakeTokens(db, w, tokens), token)
    decreases |tokens|
  {
    if tokens == [] {
      assert tokens + [token] == [token];
    } else {
      assert !w.failed by { assert w.failed ==> TakeTokens(db, w, tokens) == w; }
      TakeTokensSnoc(db, TakeToken(db, w, tokens[0]), tokens[1..], token);
      assert (tokens + [token])[1..] == tokens[1..] + [token];
    }
  }

  lemma {:induction false} FailedStays(db: Database, w: State, tokens: seq<string>, more: seq<string>)
    requires TakeTokens(db, w, tokens).failed
    ensures TakeTokens(db, w, tokens + more) == TakeTokens(db, w, tokens)
    decreases |tokens|
  {
    if tokens == [] {
      assert tokens + more == more;
    } else if !w.failed {
      FailedStays(db, TakeToken(db, w, tokens[0]), tokens[1..], more);
      assert (tokens + more)[1..] == tokens[1..] + more;
    }
  }

  /** The body of the loop for one token. */
  method OneToken(db: Database, token: string, fullName: string, isList: bool, provider: Option<Info>, isListItem: bool)
    returns (fullName': string, isList': bool, provider': Option<Info>, isListItem': bool, failed: bool)
    ensures State(fullName', isList', provider', isListItem', failed)
              == TakeToken(db, State(fullName, isList, provider, isListItem, false), token)
  {
    fullName', isList', provider', isListItem', failed := fullName, isList, provider, isListItem, false;
    if !isList {
      isListItem' := false;
      if fullName != "" { fullName' := fullName' + "."; }
      fullName' := fullName' + token;
      assert fullName' == Append(fullName, token);
      if fullName' in db {
        provider' := Some(db[fullName']);
        if db[fullName'].isList { isList' := true; }
      } else if provider.Some? {
        provider', failed := None, true;
      }
    } else {
      isList' := false;
      isListItem' := true;
    }
  }

  /** The loop over the path; `out` are the tokens so far. */
  method WalkPath(db: Database, p: string) returns (provider: Option<Info>, isListItem: bool)
    ensures var end := TakeTokens(db, START, Split(p, '.')); provider == end.provider && isListItem == end.isListItem
  {
    var n1, n2 := 0, IndexFrom(p, '.', 0);
    var fullName, isList, failed := "", false, false;
    provider, isListItem := None, false;
    ghost var out: seq<string>, w: State := [], START;
    while true
      invariant n1 <= n2 <= |p| && n2 == IndexFrom(p, '.', n1) && Consumed(p, '.', out, n1)
      invariant !w.failed && w == TakeTokens(db, START, out)
      invariant w == State(fullName, isList, provider, isListItem, false)
      decreases |p| - n1
    {
      var token := p[n1..n2];
      RoundDone(db, p, out, n1, n2);
      out, w := out + [token], TakeToken(db, w, token);
      fullName, isList, provider, isListItem, failed := OneToken(db, token, fullName, isList, provider, isListItem);
      if failed || n2 == |p| { break; }
      n1 := n2 + 1;
      n2 := IndexFrom(p, '.', n1);
    }
  }

  /** getProviderByObjectName; `isListItem` is the caller's flag, `was` what it held. */
  method GetProviderByObjectName(db: Database, p: string, was: bool) returns (provider: Option<Info>, isListItem: bool)
    ensures p == "" ==> provider == None && isListItem == was
    ensures p != "" ==>
              && provider == ProviderOf(db, Names(db, "", false, Split(p, '.')))
              && isListItem == TakeTokens(db, START, Split(p, '.')).isListItem
  {
    if p == "" { return None, was; }
    ProviderIsOfNames(db, p);
    provider, isListItem := WalkPath(db, p);
  }

  /** One round, and what leaving the loop after it means. */
  lemma RoundDone(db: Database, p: string, out: seq<string>, n1: nat, n2: nat)
    requires n1 <= n2 <= |p| && n2 == IndexFrom(p, '.', n1) && Consumed(p, '.', out, n1)
    requires !TakeTokens(db, START, out).failed
    ensures var out' := out + [p[n1..n2]];
            && TakeTokens(db, START, out') == TakeToken(db, TakeTokens(db, START, out), p[n1..n2])
            && (n2 < |p| ==> Consumed(p, '.', out', n2 + 1))
            && (n2 == |p| || TakeTokens(db, START, out').failed ==>
                  TakeTokens(db, START, Split(p, '.')) == TakeTokens(db, START, out'))
  {
    var out' := out + [p[n1..n2]];
    TokenTaken(p, '.', out, n1, n2);
    TakeTokensSnoc(db, START, out, p[n1..n2]);
    if n2 == |p| {
      assert p[..n2] == p;
      SplitJoin(out', '.');
    } else if TakeTokens(db, START, out').failed {
      ConsumedBegins(p, '.', out', n2 + 1);
      FailedStays(db, START, out', Split(p[n2 + 1..], '.'));
    }
  }
}
