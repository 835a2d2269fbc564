/** tokenizeExpression over its fixed work buffer (rtRoutingTree.c). */
module Tokenizer {
  import opened Sequences
  import opened Text
  import opened TopicTree

  const BUFFER_SIZE := 512
  const MAX_TOKENS := 32

  /** What fits the work area: the C code does not check this itself. */
  predicate Fits(expr: string) { |expr| < BUFFER_SIZE && |Tokenize(expr)| <= MAX_TOKENS }

  lemma TokenizeStep(s: string)
    requires s != ""
    ensures var i := Find(s, '.');
            Tokenize(s) == [s[..i]] + Tokenize(if i == |s| then "" else s[i + 1..])
  {
    var i := Find(s, '.');
    if i == |s| {
      assert s[..i] == s;
      assert Split("", '.') == [""];
    } else {
      TrimEndCons(s[..i], Split(s[i + 1..], '.'), "");
    }
  }

  /** `pos[k]` is where token k starts in the expression. */
  ghost predicate Layout(expr: string, all: seq<string>, pos: seq<nat>) {
    && |pos| == |all| + 1 && pos[0] == 0 && pos[|all|] == |expr|
    && forall k :: 0 <= k < |all| ==> LayoutAt(expr, all[k], pos[k], pos[k + 1])
  }

  ghost predicate LayoutAt(expr: string, token: string, start: nat, next: nat) {
    var end := start + |token|;
    && start < |expr| && end <= |expr| && expr[start..end] == token && '.' !in token
    && (end < |expr| ==> expr[end] == '.')
    && next == if end < |expr| then end + 1 else end
  }

  lemma LayoutShift(expr: string, token: string, shift: nat, at: nat, next: nat)
    requires shift <= |expr| && LayoutAt(expr[shift..], token, at, next)
    ensures LayoutAt(expr, token, at + shift, next + shift)
  {
    var end := at + |token|;
    assert expr[shift..][at..end] == expr[at + shift..end + shift];
    assert end + shift < |expr| ==> expr[shift..][end] == expr[end + shift];
  }

  lemma LayoutCons(expr: string, token: string, next: nat, rest: seq<string>, more: seq<nat>) returns (pos: seq<nat>)
    requires LayoutAt(expr, token, 0, next) && Layout(expr[next..], rest, more)
    ensures Layout(expr, [token] + rest, pos)
  {
    pos := [0] + seq(|more|, k requires 0 <= k < |more| => more[k] + next);
    var all := [token] + rest;
    forall k | 0 <= k < |all| ensures LayoutAt(expr, all[k], pos[k], pos[k + 1]) {
      if k > 0 { LayoutShift(expr, all[k], next, more[k - 1], more[k]); }
    }
  }

  lemma {:induction false} LayoutExists(expr: string) returns (pos: seq<nat>)
    ensures Layout(expr, Tokenize(expr), pos)
    decreases |expr|
  {
    if expr == "" {
      pos := [0];
    } else {
      TokenizeStep(expr);
      var i := Find(expr, '.');
      var next := if i == |expr| then i else i + 1;
      var more := LayoutExists(expr[next..]);
      assert LayoutAt(expr, expr[..i], 0, next);
      pos := LayoutCons(expr, expr[..i], next, Tokenize(expr[next..]), more);
    }
  }

  class WorkArea {
    const buffer: array<char>
    const starts: array<nat>
    const lengths: array<nat>
    var count: nat

    ghost predicate Sized() {
      && buffer.Length == BUFFER_SIZE && starts.Length == MAX_TOKENS && lengths.Length == MAX_TOKENS
      && starts != lengths
    }

    ghost predicate Valid() reads this, starts, lengths {
      && Sized()
      && count <= MAX_TOKENS
      && forall k :: 0 <= k < count ==> starts[k] + lengths[k] < BUFFER_SIZE
    }

    function Token(k: nat): string
      requires Valid() && k < count
      reads this, buffer, starts, lengths
    {
      buffer[starts[k]..starts[k] + lengths[k]]
    }

    constructor ()
      ensures Valid() && fresh(buffer) && fresh(starts) && fresh(lengths)
    {
      buffer := new char[BUFFER_SIZE](_ => '\0');
      starts := new nat[MAX_TOKENS](_ => 0);
      lengths := new nat[MAX_TOKENS](_ => 0);
      count := 0;
    }

    /** The inner loop: copies up to the next dot or the end. */
    method CopyUntilDot(expr: string, from0: nat, to0: nat, ghost token: string, ghost next: nat)
      returns (from: nat, to: nat)
      requires LayoutAt(expr, token, from0, next) && to0 + |token| < buffer.Length
      modifies buffer
      ensures from == from0 + |token| && to == to0 + |token|
      ensures buffer[to0..to] == token
      ensures forall j :: 0 <= j < to0 ==> buffer[j] == old(buffer[j])
    {
      from, to := from0, to0;
      while from < |expr| && expr[from] != '.'
        invariant from0 <= from <= from0 + |token| && to == to0 + (from - from0)
        invariant forall j :: to0 <= j < to ==> buffer[j] == token[j - to0]
        invariant forall j :: 0 <= j < to0 ==> buffer[j] == old(buffer[j])
        invariant from < from0 + |token| ==> expr[from] == token[from - from0]
      {
        buffer[to] := expr[from];
        to, from := to + 1, from + 1;
      }
    }

    /** Tokens 0..i lie before `end` and read as `all` says. */
    ghost predicate Written(i: nat, end: nat, all: seq<string>)
      requires Sized()
      reads this, buffer, starts, lengths
    {
      && i <= MAX_TOKENS && i <= |all| && end <= BUFFER_SIZE
      && forall k :: 0 <= k < i ==> WrittenAt(k, end, all[k])
    }

    ghost predicate WrittenAt(k: nat, end: nat, token: string)
      requires Sized() && k < MAX_TOKENS && end <= BUFFER_SIZE
      reads this, buffer, starts, lengths
    {
      && starts[k] + lengths[k] < end
      && buffer[starts[k]..starts[k] + lengths[k]] == token
      && buffer[starts[k] + lengths[k]] == '\0'
    }

    /** One round of the outer loop. */
    method StoreToken(i: nat, expr: string, from0: nat, to0: nat, ghost all: seq<string>, ghost next: nat)
      returns (from: nat, to: nat)
      requires Sized() && i < MAX_TOKENS && i < |all| && Written(i, to0, all)
      requires LayoutAt(expr, all[i], from0, next) && to0 + |all[i]| < BUFFER_SIZE
      modifies buffer, starts, lengths
      ensures from == from0 + |all[i]| && to == to0 + |all[i]| + 1
      ensures Written(i + 1, to, all)
    {
      starts[i] := to0;
      from, to := CopyUntilDot(expr, from0, to0, all[i], next);
      lengths[i] := to - starts[i];
      buffer[to] := '\0';
      to := to + 1;
      forall k | 0 <= k < i ensures WrittenAt(k, to, all[k]) {
        assert old(WrittenAt(k, to0, all[k]));
        assert buffer[starts[k]..starts[k] + lengths[k]] == old(buffer[starts[k]..starts[k] + lengths[k]]);
      }
      assert WrittenAt(i, to, all[i]);
    }

    /** The outer loop: `n` tokens, all before `end`. */
    method StoreTokens(expr: string) returns (n: nat, ghost end: nat)
      requires Sized() && Fits(expr)
      modifies buffer, starts, lengths
      ensures n == |Tokenize(expr)| && Written(n, end, Tokenize(expr))
    {
      ghost var all := Tokenize(expr);
      ghost var pos := LayoutExists(expr);
      var from, to := 0, 0;
      n := 0;
      while from < |expr|
        invariant n <= |all| && from == pos[n]
        invariant n < |all| ==> LayoutAt(expr, all[n], pos[n], pos[n + 1])
        invariant to == from || (from == |expr| && to == from + 1)
        invariant Written(n, to, all)
      {
        from, to := StoreToken(n, expr, from, to, all, pos[n + 1]);
        if from < |expr| {
          from := from + 1;
        }
        n := n + 1;
      }
      end := to;
    }

    /** Token k of the expression is the NUL-terminated string at `starts[k]`. */
    method TokenizeExpression(expr: string)
      requires Valid() && Fits(expr)
      modifies this, buffer, starts, lengths
      ensures Valid()
      ensures count == |Tokenize(expr)|
      ensures forall k :: 0 <= k < count ==> Token(k) == Tokenize(expr)[k]
      ensures forall k :: 0 <= k < count ==> buffer[starts[k] + lengths[k]] == '\0'
    {
      ghost var end;
      count, end := StoreTokens(expr);
      forall k | 0 <= k < count
        ensures starts[k] + lengths[k] < BUFFER_SIZE
        ensures buffer[starts[k] + lengths[k]] == '\0'
        ensures buffer[starts[k]..starts[k] + lengths[k]] == Tokenize(expr)[k]
      {
        assert WrittenAt(k, end, Tokenize(expr)[k]);
      }
    }
  }

  /** The tokens of an expression, by way of a work area. */
  method Tokens(expr: string) returns (tokens: seq<string>)
    requires Fits(expr)
    ensures tokens == Tokenize(expr)
  {
    var work := new WorkArea();
    work.TokenizeExpression(expr);
    tokens := [];
    for k := 0 to work.count
      invariant work.Valid() && work.count == |Tokenize(expr)|
      invariant forall j :: 0 <= j < work.count ==> work.Token(j) == Tokenize(expr)[j]
      invariant tokens == Tokenize(expr)[..k]
    {
      TakeNext(Tokenize(expr), k);
      tokens := tokens + [work.Token(k)];
    }
  }
}
