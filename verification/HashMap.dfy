/** rtHashMap.c with its default string keys: chained buckets that are rehashed into twice
    or half as many. */
module HashMap {
  import opened Sequences

  type Value = nat

  datatype Node = Node(key: string, value: Value)

  type Buckets = seq<seq<Node>>

  /** The struct: its buckets and its count of nodes. */
  datatype Map = Map(buckets: Buckets, size: nat)

  const INIT_SIZE := 16
  const LOAD_FACTOR := 0.75

  // ---------------------------------------------------------------------- hashing

  /** 32-bit int arithmetic, two's complement. */
  function Wrap32(n: int): int { (n + 0x8000_0000) % 0x1_0000_0000 - 0x8000_0000 }

  function CharValue(c: char): int {
    var b := c as int % 0x100;
    if b < 0x80 then b else b - 0x100
  }

  function HashFrom(hash: int, key: string): int
    decreases |key|
  {
    if key == "" then hash else HashFrom(Wrap32(hash * 31 + CharValue(key[0])), key[1..])
  }

  /** abs() of an int taken as size_t: the most negative int stays as it is. */
  function AbsSize(h: int): nat {
    var a := if h == -0x8000_0000 || h >= 0 then h else -h;
    a % 0x1_0000_0000_0000_0000
  }

  function BucketIndex(key: string, n: nat): (b: nat)
    requires n > 0
    ensures b < n
  {
    AbsSize(HashFrom(0, key)) % n
  }

  // -------------------------------------------------------------------- operations

  function FindKey(nodes: seq<Node>, key: string): Option<Value> {
    if nodes == [] then None
    else if nodes[0].key == key then Some(nodes[0].value)
    else FindKey(nodes[1..], key)
  }

  /** The first node for the key gets the value. */
  function Replace(nodes: seq<Node>, key: string, value: Value): seq<Node> {
    if nodes == [] then []
    else if nodes[0].key == key then [Node(key, value)] + nodes[1..]
    else [nodes[0]] + Replace(nodes[1..], key, value)
  }

  /** The first node for the key goes. */
  function Delete(nodes: seq<Node>, key: string): seq<Node> {
    if nodes == [] then []
    else if nodes[0].key == key then nodes[1..]
    else [nodes[0]] + Delete(nodes[1..], key)
  }

  function EmptyBuckets(n: nat): (r: Buckets)
    ensures |r| == n && forall b :: 0 <= b < n ==> r[b] == []
  {
    seq(n, _ => [])
  }

  function Put(bs: Buckets, node: Node): Buckets
    requires bs != []
  {
    var b := BucketIndex(node.key, |bs|);
    bs[b := bs[b] + [node]]
  }

  function PutAll(bs: Buckets, nodes: seq<Node>): (r: Buckets)
    requires bs != []
    ensures |r| == |bs|
    decreases |nodes|
  {
    if nodes == [] then bs else PutAll(Put(bs, nodes[0]), nodes[1..])
  }

  /** All nodes, bucket after bucket. */
  function All(bs: Buckets): seq<Node> {
    if bs == [] then [] else bs[0] + All(bs[1..])
  }

  function Rehash(bs: Buckets, grow: bool): Buckets
    requires |bs| >= 2
  {
    PutAll(EmptyBuckets(if grow then |bs| * 2 else |bs| / 2), All(bs))
  }

  function Bucket(m: Map, key: string): seq<Node>
    requires m.buckets != []
  {
    m.buckets[BucketIndex(key, |m.buckets|)]
  }

  function ValueOf(m: Map, key: string): Option<Value>
    requires m.buckets != []
  {
    FindKey(Bucket(m, key), key)
  }

  predicate TooFull(size: nat, n: nat)
    requires n > 0
  {
    (size as real + 1.0) / n as real > LOAD_FACTOR
  }

  /** The shrink test: the first division is one of integers. */
  predicate TooEmpty(size: nat, n: nat)
    requires n > 0
  {
    (size / n) as real / 2.0 < LOAD_FACTOR
  }

  function WithKey(m: Map, key: string, value: Value): Map
    requires |m.buckets| >= INIT_SIZE
  {
    var b := BucketIndex(key, |m.buckets|);
    if ValueOf(m, key).Some? then m.(buckets := m.buckets[b := Replace(m.buckets[b], key, value)])
    else
      var bs := if TooFull(m.size, |m.buckets|) then Rehash(m.buckets, true) else m.buckets;
      Map(Put(bs, Node(key, value)), m.size + 1)
  }

  function WithoutKey(m: Map, key: string): Map
    requires |m.buckets| >= INIT_SIZE
  {
    if ValueOf(m, key).None? || m.size == 0 then m
    else
      var b := BucketIndex(key, |m.buckets|);
      var bs := m.buckets[b := Delete(m.buckets[b], key)];
      Map(if |bs| > INIT_SIZE && TooEmpty(m.size - 1, |bs|) then Rehash(bs, false) else bs, m.size - 1)
  }

  // ------------------------------------------------------------------------ lemmas

  function Count(nodes: seq<Node>, key: string): nat {
    if nodes == [] then 0 else (if nodes[0].key == key then 1 else 0) + Count(nodes[1..], key)
  }

  lemma {:induction false} CountFind(nodes: seq<Node>, key: string)
    ensures Count(nodes, key) == 0 <==> FindKey(nodes, key).None?
  {
    if nodes == [] {
    } else {
      CountFind(nodes[1..], key);
    }
  }

  lemma {:induction false} Concat(a: seq<Node>, b: seq<Node>, key: string)
    ensures Count(a + b, key) == Count(a, key) + Count(b, key)
    ensures FindKey(a + b, key) == if FindKey(a, key).Some? then FindKey(a, key) else FindKey(b, key)
  {
    if a == [] {
      assert a + b == b;
    } else {
      Concat(a[1..], b, key);
      assert (a + b)[1..] == a[1..] + b;
    }
  }

  /** Every node is in the bucket its key selects. */
  ghost predicate Placed(bs: Buckets) {
    forall b, i :: 0 <= b < |bs| && 0 <= i < |bs[b]| ==> BucketIndex(bs[b][i].key, |bs|) == b
  }

  ghost predicate Elsewhere(nodes: seq<Node>, key: string) {
    forall i :: 0 <= i < |nodes| ==> nodes[i].key != key
  }

  lemma {:induction false} NotElsewhere(nodes: seq<Node>, key: string)
    requires Elsewhere(nodes, key)
    ensures Count(nodes, key) == 0 && FindKey(nodes, key).None?
  {
    if nodes == [] {
    } else {
      NotElsewhere(nodes[1..], key);
    }
  }

  /** Only bucket `b` of `bs` may hold the key. */
  lemma {:induction false} AllFinds(bs: Buckets, b: nat, key: string)
    requires b < |bs| && forall c :: 0 <= c < |bs| && c != b ==> Elsewhere(bs[c], key)
    ensures FindKey(All(bs), key) == FindKey(bs[b], key) && Count(All(bs), key) == Count(bs[b], key)
  {
    Concat(bs[0], All(bs[1..]), key);
    if b == 0 {
      AllMisses(bs[1..], key);
    } else {
      NotElsewhere(bs[0], key);
      AllFinds(bs[1..], b - 1, key);
    }
  }

  lemma {:induction false} AllMisses(bs: Buckets, key: string)
    requires forall c :: 0 <= c < |bs| ==> Elsewhere(bs[c], key)
    ensures FindKey(All(bs), key).None? && Count(All(bs), key) == 0
  {
    if bs == [] {
    } else {
      Concat(bs[0], All(bs[1..]), key);
      NotElsewhere(bs[0], key);
      AllMisses(bs[1..], key);
    }
  }

  lemma PlacedFinds(bs: Buckets, key: string)
    requires bs != [] && Placed(bs)
    ensures var b := BucketIndex(key, |bs|);
            FindKey(All(bs), key) == FindKey(bs[b], key) && Count(All(bs), key) == Count(bs[b], key)
  {
    AllFinds(bs, BucketIndex(key, |bs|), key);
  }

  lemma PutKeeps(bs: Buckets, node: Node)
    requires bs != [] && Placed(bs)
    ensures Placed(Put(bs, node))
  {}

  lemma {:induction false} AllLength(bs: Buckets, b: nat, nodes: seq<Node>)
    requires b < |bs|
    ensures |All(bs[b := nodes])| == |All(bs)| - |bs[b]| + |nodes|
  {
    if b == 0 {
      assert bs[b := nodes][1..] == bs[1..];
    } else {
      AllLength(bs[1..], b - 1, nodes);
      assert bs[b := nodes][1..] == bs[1..][b - 1 := nodes];
    }
  }

  /** Putting nodes one by one adds each to the end of its bucket. */
  lemma {:induction false} PutAllFinds(bs: Buckets, nodes: seq<Node>, key: string)
    requires bs != [] && Placed(bs)
    ensures var r := PutAll(bs, nodes);
            var b := BucketIndex(key, |bs|);
            && Placed(r) && |All(r)| == |All(bs)| + |nodes|
            && Count(r[b], key) == Count(bs[b], key) + Count(nodes, key)
            && FindKey(r[b], key) == if FindKey(bs[b], key).Some? then FindKey(bs[b], key) else FindKey(nodes, key)
    decreases |nodes|
  {
    if nodes == [] {
    } else {
      var node, b := nodes[0], BucketIndex(key, |bs|);
      var bs1 := Put(bs, node);
      PutKeeps(bs, node);
      PutAllFinds(bs1, nodes[1..], key);
      AllLength(bs, BucketIndex(node.key, |bs|), bs[BucketIndex(node.key, |bs|)] + [node]);
      Concat(bs[b], [node], key);
      if BucketIndex(node.key, |bs|) == b {
        assert bs1[b] == bs[b] + [node];
      } else {
        assert bs1[b] == bs[b];
      }
    }
  }

  lemma {:induction false} AllEmpty(n: nat)
    ensures All(EmptyBuckets(n)) == []
  {
    if n == 0 {
    } else {
      AllEmpty(n - 1);
      assert EmptyBuckets(n)[1..] == EmptyBuckets(n - 1);
    }
  }

  /** Rehashing keeps every lookup. */
  lemma ResizeKeeps(bs: Buckets, grow: bool, key: string)
    requires |bs| >= 2 && Placed(bs)
    ensures var r := Rehash(bs, grow);
            && Placed(r) && |All(r)| == |All(bs)| && r != []
            && Count(r[BucketIndex(key, |r|)], key) == Count(bs[BucketIndex(key, |bs|)], key)
            && FindKey(r[BucketIndex(key, |r|)], key) == FindKey(bs[BucketIndex(key, |bs|)], key)
  {
    var n := if grow then |bs| * 2 else |bs| / 2;
    AllEmpty(n);
    PutAllFinds(EmptyBuckets(n), All(bs), key);
    PlacedFinds(bs, key);
  }

  // -------------------------------------------------------------------- refinement

  /** The bucket count is 16 doubled some number of times. */
  predicate Doubled(n: nat) { n == INIT_SIZE || (n > INIT_SIZE && n % 2 == 0 && Doubled(n / 2)) }

  ghost predicate Unique(m: Map, key: string)
    requires m.buckets != []
  {
    Count(Bucket(m, key), key) <= 1
  }

  ghost predicate Inv(m: Map) {
    && Doubled(|m.buckets|) && |m.buckets| >= INIT_SIZE
    && Placed(m.buckets) && m.size == |All(m.buckets)|
    && forall key :: Unique(m, key)
  }

  function Lookup(f: map<string, Value>, key: string): Option<Value> { if key in f then Some(f[key]) else None }

  ghost predicate Agrees(m: Map, f: map<string, Value>, key: string)
    requires m.buckets != []
  {
    ValueOf(m, key) == Lookup(f, key)
  }

  /** `m` is a representation of the finite map `f`. */
  ghost predicate Represents(m: Map, f: map<string, Value>) {
    Inv(m) && m.size == |f| && forall key :: Agrees(m, f, key)
  }

  lemma StartRepresents()
    ensures Represents(Map(EmptyBuckets(INIT_SIZE), 0), map[])
  {
    var m := Map(EmptyBuckets(INIT_SIZE), 0);
    AllEmpty(INIT_SIZE);
    forall key ensures Unique(m, key) && Agrees(m, map[], key) { assert Bucket(m, key) == []; }
  }

  lemma {:induction false} ReplaceFinds(nodes: seq<Node>, k: string, value: Value, key: string)
    ensures Count(Replace(nodes, k, value), key) == Count(nodes, key)
    ensures FindKey(Replace(nodes, k, value), key) ==
              if key == k && FindKey(nodes, k).Some? then Some(value) else FindKey(nodes, key)
    ensures |Replace(nodes, k, value)| == |nodes|
    ensures forall i :: 0 <= i < |nodes| ==> Replace(nodes, k, value)[i].key == nodes[i].key
  {
    if nodes != [] && nodes[0].key != k {
      ReplaceFinds(nodes[1..], k, value, key);
    }
  }

  lemma {:induction false} DeleteFinds(nodes: seq<Node>, k: string, key: string)
    requires FindKey(nodes, k).Some?
    ensures |Delete(nodes, k)| == |nodes| - 1
    ensures Count(Delete(nodes, k), key) == Count(nodes, key) - if key == k then 1 else 0
    ensures key != k ==> FindKey(Delete(nodes, k), key) == FindKey(nodes, key)
  {
    if nodes[0].key != k {
      DeleteFinds(nodes[1..], k, key);
    }
  }

  lemma {:induction false} DeleteKeys(nodes: seq<Node>, k: string)
    ensures forall n :: n in Delete(nodes, k) ==> n in nodes
  {
    if nodes != [] && nodes[0].key != k { DeleteKeys(nodes[1..], k); }
  }

  /** What a changed bucket has to hold. */
  ghost predicate Fits(nodes: seq<Node>, b: nat, n: nat, f: map<string, Value>, key: string)
    requires n > 0
  {
    BucketIndex(key, n) == b ==> Count(nodes, key) <= 1 && FindKey(nodes, key) == Lookup(f, key)
  }

  lemma BucketChange(m: Map, f: map<string, Value>, b: nat, nodes: seq<Node>, f': map<string, Value>)
    requires Represents(m, f) && b < |m.buckets|
    requires forall i :: 0 <= i < |nodes| ==> BucketIndex(nodes[i].key, |m.buckets|) == b
    requires forall key :: Fits(nodes, b, |m.buckets|, f', key)
    requires forall key :: BucketIndex(key, |m.buckets|) != b ==> Lookup(f', key) == Lookup(f, key)
    requires |f'| == m.size - |m.buckets[b]| + |nodes|
    ensures Represents(Map(m.buckets[b := nodes], |f'|), f')
  {
    var m' := Map(m.buckets[b := nodes], |f'|);
    AllLength(m.buckets, b, nodes);
    forall key ensures Unique(m', key) && Agrees(m', f', key) {
      assert Unique(m, key) && Agrees(m, f, key);
      assert Fits(nodes, b, |m.buckets|, f', key);
    }
  }

  lemma ReplaceRepresents(m: Map, f: map<string, Value>, key: string, value: Value)
    requires Represents(m, f) && ValueOf(m, key).Some?
    ensures Represents(WithKey(m, key, value), f[key := value])
  {
    var b := BucketIndex(key, |m.buckets|);
    var nodes, f' := Replace(m.buckets[b], key, value), f[key := value];
    assert Agrees(m, f, key);
    assert f'.Keys == f.Keys;
    ReplaceFinds(m.buckets[b], key, value, key);
    forall k ensures Fits(nodes, b, |m.buckets|, f', k) {
      assert Unique(m, k) && Agrees(m, f, k);
      ReplaceFinds(m.buckets[b], key, value, k);
    }
    BucketChange(m, f, b, nodes, f');
  }

  lemma PutFits(m: Map, f: map<string, Value>, node: Node, k: string)
    requires m.buckets != [] && Unique(m, k) && Agrees(m, f, k) && ValueOf(m, node.key).None?
    ensures var b := BucketIndex(node.key, |m.buckets|);
            Fits(m.buckets[b] + [node], b, |m.buckets|, f[node.key := node.value], k)
  {
    var nodes := Bucket(m, node.key);
    CountFind(nodes, node.key);
    Concat(nodes, [node], k);
  }

  /** One more node for a key that has none. */
  lemma PutRepresents(m: Map, f: map<string, Value>, key: string, value: Value)
    requires Represents(m, f) && ValueOf(m, key).None?
    ensures Represents(Map(Put(m.buckets, Node(key, value)), m.size + 1), f[key := value])
  {
    var b := BucketIndex(key, |m.buckets|);
    var nodes, f' := m.buckets[b] + [Node(key, value)], f[key := value];
    assert Agrees(m, f, key);
    assert f'.Keys == f.Keys + {key};
    forall k ensures Fits(nodes, b, |m.buckets|, f', k) {
      assert Unique(m, k) && Agrees(m, f, k);
      PutFits(m, f, Node(key, value), k);
    }
    BucketChange(m, f, b, nodes, f');
  }

  lemma ResizeRepresents(m: Map, f: map<string, Value>, grow: bool)
    requires Represents(m, f) && (!grow ==> |m.buckets| > INIT_SIZE)
    ensures Represents(m.(buckets := Rehash(m.buckets, grow)), f)
  {
    var m' := m.(buckets := Rehash(m.buckets, grow));
    forall key ensures Unique(m', key) && Agrees(m', f, key) && Placed(m'.buckets) && m'.size == |All(m'.buckets)| {
      assert Unique(m, key) && Agrees(m, f, key);
      ResizeKeeps(m.buckets, grow, key);
    }
    assert Agrees(m', f, "");
  }

  lemma SetRepresents(m: Map, f: map<string, Value>, key: string, value: Value)
    requires Represents(m, f)
    ensures Represents(WithKey(m, key, value), f[key := value])
  {
    if ValueOf(m, key).Some? {
      ReplaceRepresents(m, f, key, value);
    } else if TooFull(m.size, |m.buckets|) {
      ResizeRepresents(m, f, true);
      var m1 := m.(buckets := Rehash(m.buckets, true));
      assert Agrees(m, f, key) && Agrees(m1, f, key);
      PutRepresents(m1, f, key, value);
    } else {
      PutRepresents(m, f, key, value);
    }
  }

  lemma DeleteFits(m: Map, f: map<string, Value>, key: string, k: string)
    requires m.buckets != [] && Unique(m, k) && Agrees(m, f, k) && Agrees(m, f, key) && ValueOf(m, key).Some?
    ensures key in f
    ensures var b := BucketIndex(key, |m.buckets|); Fits(Delete(m.buckets[b], key), b, |m.buckets|, f - {key}, k)
  {
    var b := BucketIndex(key, |m.buckets|);
    DeleteFinds(m.buckets[b], key, k);
    CountFind(Delete(m.buckets[b], key), k);
  }

  lemma DeletePlaced(m: Map, key: string)
    requires m.buckets != [] && Placed(m.buckets)
    ensures var b := BucketIndex(key, |m.buckets|);
            forall n :: n in Delete(m.buckets[b], key) ==> BucketIndex(n.key, |m.buckets|) == b
  {
    DeleteKeys(Bucket(m, key), key);
  }

  lemma DeleteRepresents(m: Map, f: map<string, Value>, key: string)
    requires Represents(m, f) && ValueOf(m, key).Some?
    ensures m.size > 0 && key in f
    ensures var b := BucketIndex(key, |m.buckets|);
            Represents(Map(m.buckets[b := Delete(m.buckets[b], key)], m.size - 1), f - {key})
  {
    var b := BucketIndex(key, |m.buckets|);
    var nodes, f' := Delete(m.buckets[b], key), f - {key};
    assert Agrees(m, f, key);
    assert f'.Keys == f.Keys - {key};
    DeleteFinds(m.buckets[b], key, key);
    DeletePlaced(m, key);
    forall k ensures Fits(nodes, b, |m.buckets|, f', k) {
      assert Unique(m, k) && Agrees(m, f, k);
      DeleteFits(m, f, key, k);
    }
    BucketChange(m, f, b, nodes, f');
  }

  lemma RemoveRepresents(m: Map, f: map<string, Value>, key: string)
    requires Represents(m, f)
    ensures Represents(WithoutKey(m, key), f - {key})
  {
    assert Agrees(m, f, key);
    if ValueOf(m, key).Some? {
      DeleteRepresents(m, f, key);
      var b := BucketIndex(key, |m.buckets|);
      var m1 := Map(m.buckets[b := Delete(m.buckets[b], key)], m.size - 1);
      if |m1.buckets| > INIT_SIZE { ResizeRepresents(m1, f - {key}, false); }
    } else {
      assert f - {key} == f;
    }
  }

  // ------------------------------------------------------------------------- runs

  datatype Op = SetKey(key: string, value: Value) | RemoveKey(key: string)

  function Step(m: Map, op: Op): Map
    requires |m.buckets| >= INIT_SIZE
  {
    match op
    case SetKey(key, value) => WithKey(m, key, value)
    case RemoveKey(key) => WithoutKey(m, key)
  }

  function MapStep(f: map<string, Value>, op: Op): map<string, Value> {
    match op
    case SetKey(key, value) => f[key := value]
    case RemoveKey(key) => f - {key}
  }

  ghost predicate Runs(m: Map, f: map<string, Value>, ops: seq<Op>, m': Map, f': map<string, Value>)
    decreases |ops|
  {
    if ops == [] then m' == m && f' == f
    else |m.buckets| >= INIT_SIZE && Runs(Step(m, ops[0]), MapStep(f, ops[0]), ops[1..], m', f')
  }

  lemma {:induction false} RunRefines(m: Map, f: map<string, Value>, ops: seq<Op>, m': Map, f': map<string, Value>)
    requires Represents(m, f) && Runs(m, f, ops, m', f')
    ensures Represents(m', f')
    decreases |ops|
  {
    if ops == [] {
    } else {
      match ops[0] {
        case SetKey(key, value) => SetRepresents(m, f, key, value);
        case RemoveKey(key) => RemoveRepresents(m, f, key);
      }
      RunRefines(Step(m, ops[0]), MapStep(f, ops[0]), ops[1..], m', f');
    }
  }

  /** Through any run of Set and Remove, resizes in both directions included, lookups
      answer from the finite map and the size is its size. */
  lemma HashMapIsMap(ops: seq<Op>, m: Map, f: map<string, Value>, key: string)
    requires Runs(Map(EmptyBuckets(INIT_SIZE), 0), map[], ops, m, f)
    ensures Inv(m) && m.size == |f| && ValueOf(m, key) == Lookup(f, key)
  {
    StartRepresents();
    RunRefines(Map(EmptyBuckets(INIT_SIZE), 0), map[], ops, m, f);
    assert Agrees(m, f, key);
  }

  // ------------------------------------------------------------------------ the hash

  /** What the key spells in base 31, its characters being signed bytes. */
  function Spelled(key: string): int {
    if key == "" then 0 else Spelled(key[..|key| - 1]) * 31 + CharValue(key[|key| - 1])
  }

  /** Two's complement: the same modulo 2^32, and in the range of an int. */
  lemma WrapMeans(n: int)
    ensures -0x8000_0000 <= Wrap32(n) < 0x8000_0000 && (Wrap32(n) - n) % 0x1_0000_0000 == 0
  {}

  lemma WrapUnique(a: int, b: int)
    requires (a - b) % 0x1_0000_0000 == 0
    ensures Wrap32(a) == Wrap32(b)
  {
    var k := (a - b) / 0x1_0000_0000;
    assert a == b + k * 0x1_0000_0000;
  }

  lemma WrapStep(a: int, c: int)
    ensures Wrap32(Wrap32(a) * 31 + c) == Wrap32(a * 31 + c)
  {
    WrapMeans(a);
    var k := (Wrap32(a) - a) / 0x1_0000_0000;
    assert Wrap32(a) == a + k * 0x1_0000_0000;
    assert Wrap32(a) * 31 + c - (a * 31 + c) == 31 * k * 0x1_0000_0000;
    WrapUnique(Wrap32(a) * 31 + c, a * 31 + c);
  }

  lemma {:induction false} HashSnoc(hash: int, key: string)
    requires key != ""
    ensures HashFrom(hash, key) == Wrap32(HashFrom(hash, key[..|key| - 1]) * 31 + CharValue(key[|key| - 1]))
    decreases |key|
  {
    var h1 := Wrap32(hash * 31 + CharValue(key[0]));
    if |key| == 1 {
      assert key[1..] == "" && key[..0] == "";
    } else {
      HashSnoc(h1, key[1..]);
      assert key[1..][..|key| - 2] == key[..|key| - 1][1..];
    }
  }

  /** The string hash is that number, reduced to an int once. */
  lemma {:induction false} HashIsSpelled(key: string)
    ensures HashFrom(0, key) == Wrap32(Spelled(key))
    decreases |key|
  {
    if key == "" {
    } else {
      HashSnoc(0, key);
      HashIsSpelled(key[..|key| - 1]);
      WrapStep(Spelled(key[..|key| - 1]), CharValue(key[|key| - 1]));
    }
  }

  /** chars are signed. */
  lemma CharIsSigned(c: char)
    ensures -0x80 <= CharValue(c) < 0x80 && (CharValue(c) - c as int) % 0x100 == 0
  {}

  /** abs() as a size: only the most negative int has none, and stands for 2^64 - 2^31. */
  lemma SizeMeans(h: int)
    requires -0x8000_0000 <= h < 0x8000_0000
    ensures AbsSize(h) == if h == -0x8000_0000 then 0x1_0000_0000_0000_0000 - 0x8000_0000 else if h < 0 then -h else h
  {}

  /** The bucket is that size of what the key spells, modulo the number of buckets. */
  lemma BucketMeans(key: string, n: nat, h: int)
    requires n > 0 && h == Wrap32(Spelled(key))
    ensures BucketIndex(key, n) ==
              (if h == -0x8000_0000 then 0x1_0000_0000_0000_0000 - 0x8000_0000 else if h < 0 then -h else h) % n
  {
    HashIsSpelled(key);
    WrapMeans(Spelled(key));
    SizeMeans(h);
  }

  // ------------------------------------------------------------------- load factor

  /** At most three nodes to four buckets. */
  predicate Light(m: Map) { 4 * m.size <= 3 * |m.buckets| }

  lemma Scaled(a: real, b: real, n: real)
    requires n > 0.0
    ensures a > b <==> a * n > b * n
  {
    if a > b {
      assert (a - b) * n > 0.0;
    } else {
      assert (b - a) * n >= 0.0;
    }
  }

  lemma TooFullMeans(size: nat, n: nat)
    requires n > 0
    ensures TooFull(size, n) <==> 4 * (size + 1) > 3 * n
  {
    var d := n as real;
    var q := (size as real + 1.0) / d;
    assert q * d == size as real + 1.0;
    Scaled(q, LOAD_FACTOR, d);
    assert LOAD_FACTOR * d == (3 * n) as real / 4.0;
    assert 4.0 * (size as real + 1.0) == (4 * (size + 1)) as real;
  }

  lemma TooEmptyMeans(size: nat, n: nat)
    requires n > 0
    ensures TooEmpty(size, n) <==> size < 2 * n
  {
    assert size / n <= 1 <==> size < 2 * n;
  }

  /** Set doubles the buckets exactly for a new key that leaves fewer than four buckets to three
      nodes. */
  lemma SetGrowsIff(m: Map, key: string, value: Value)
    requires Inv(m)
    ensures |WithKey(m, key, value).buckets| ==
              if ValueOf(m, key).None? && 4 * (m.size + 1) > 3 * |m.buckets| then 2 * |m.buckets| else |m.buckets|
  {
    TooFullMeans(m.size, |m.buckets|);
  }

  /** Remove halves them exactly if there are more than 16 and fewer than two nodes to each are
      left. */
  lemma RemoveShrinksIff(m: Map, key: string)
    requires Inv(m)
    ensures |WithoutKey(m, key).buckets| ==
              if ValueOf(m, key).Some? && |m.buckets| > INIT_SIZE && m.size - 1 < 2 * |m.buckets|
              then |m.buckets| / 2 else |m.buckets|
  {
    if ValueOf(m, key).Some? {
      var b := BucketIndex(key, |m.buckets|);
      DeleteFinds(m.buckets[b], key, key);
      AllLength(m.buckets, b, Delete(m.buckets[b], key));
      TooEmptyMeans(m.size - 1, |m.buckets|);
    }
  }

  lemma SetKeepsLight(m: Map, key: string, value: Value)
    requires Inv(m) && Light(m)
    ensures Light(WithKey(m, key, value))
  {
    TooFullMeans(m.size, |m.buckets|);
  }

  /** Remove halves the buckets of every light map that has more than 16, and leaves it
      light exactly when the nodes left still fit half as many. */
  lemma RemoveKeepsLightIff(m: Map, key: string)
    requires Inv(m) && Light(m) && ValueOf(m, key).Some?
    ensures Light(WithoutKey(m, key)) <==> |m.buckets| == INIT_SIZE || 4 * (m.size - 1) <= 3 * (|m.buckets| / 2)
  {
    var b := BucketIndex(key, |m.buckets|);
    DeleteFinds(m.buckets[b], key, key);
    AllLength(m.buckets, b, Delete(m.buckets[b], key));
    if |m.buckets| > INIT_SIZE { TooEmptyMeans(m.size - 1, |m.buckets|); }
  }

  lemma {:induction false} SetRunsLight(m: Map, f: map<string, Value>, ops: seq<Op>, m': Map, f': map<string, Value>)
    requires Represents(m, f) && Light(m) && Runs(m, f, ops, m', f') && forall op :: op in ops ==> op.SetKey?
    ensures Light(m')
    decreases |ops|
  {
    if ops == [] {
    } else {
      SetKeepsLight(m, ops[0].key, ops[0].value);
      SetRepresents(m, f, ops[0].key, ops[0].value);
      SetRunsLight(Step(m, ops[0]), MapStep(f, ops[0]), ops[1..], m', f');
    }
  }

  const START := Map(EmptyBuckets(INIT_SIZE), 0)

  function SetAll(m: Map, keys: seq<string>, value: Value): (r: Map)
    requires |m.buckets| >= INIT_SIZE
    ensures |r.buckets| >= INIT_SIZE
    decreases |keys|
  {
    if keys == [] then m else SetAll(WithKey(m, keys[0], value), keys[1..], value)
  }

  /** Below 25 keys the only growth is the one that the thirteenth key asks for. */
  lemma {:induction false} SetsGrow(m: Map, f: map<string, Value>, keys: seq<string>, value: Value)
    requires Represents(m, f) && NoDup(keys) && (forall k :: k in keys ==> k !in f) && m.size + |keys| <= 24
    requires |m.buckets| == if m.size <= 12 then 16 else 32
    ensures var r := SetAll(m, keys, value);
            && Inv(r) && r.size == m.size + |keys| && |r.buckets| == (if r.size <= 12 then 16 else 32)
            && forall k :: k in keys ==> ValueOf(r, k).Some?
    decreases |keys|
  {
    if keys == [] {
    } else {
      var m1, f1 := WithKey(m, keys[0], value), f[keys[0] := value];
      NoDupTail(keys);
      assert Agrees(m, f, keys[0]);
      SetRepresents(m, f, keys[0], value);
      TooFullMeans(m.size, |m.buckets|);
      SetsGrow(m1, f1, keys[1..], value);
      SetsKeep(m1, f1, keys[1..], value, keys[0]);
    }
  }

  /** A key that is there stays there. */
  lemma {:induction false} SetsKeep(m: Map, f: map<string, Value>, keys: seq<string>, value: Value, key: string)
    requires Represents(m, f) && key in f
    ensures ValueOf(SetAll(m, keys, value), key).Some?
    decreases |keys|
  {
    if keys == [] {
      assert Agrees(m, f, key);
    } else {
      SetRepresents(m, f, keys[0], value);
      SetsKeep(WithKey(m, keys[0], value), f[keys[0] := value], keys[1..], value, key);
    }
  }

  /** Fourteen keys set and one of them removed: thirteen nodes are left to sixteen buckets. */
  lemma RemoveTooFull(keys: seq<string>, value: Value)
    requires NoDup(keys) && |keys| == 14
    ensures var m := SetAll(START, keys, value); Light(m) && !Light(WithoutKey(m, keys[0]))
  {
    StartRepresents();
    SetsGrow(START, map[], keys, value);
    RemoveKeepsLightIff(SetAll(START, keys, value), keys[0]);
  }

  // ------------------------------------------------------------- the map in place

  predicate FirstAt(nodes: seq<Node>, key: string, i: nat) {
    i <= |nodes| && (i < |nodes| ==> nodes[i].key == key) && forall j :: 0 <= j < i ==> nodes[j].key != key
  }

  lemma FirstInTail(nodes: seq<Node>, key: string, i: nat)
    requires FirstAt(nodes, key, i) && i > 0
    ensures nodes[0].key != key && FirstAt(nodes[1..], key, i - 1)
  {}

  lemma {:induction false} FoundValue(nodes: seq<Node>, key: string, i: nat)
    requires FirstAt(nodes, key, i)
    ensures FindKey(nodes, key) == if i < |nodes| then Some(nodes[i].value) else None
  {
    if i == 0 {
    } else {
      FirstInTail(nodes, key, i);
      FoundValue(nodes[1..], key, i - 1);
    }
  }

  lemma {:induction false} FoundReplaced(nodes: seq<Node>, key: string, value: Value, i: nat)
    requires FirstAt(nodes, key, i) && i < |nodes|
    ensures Replace(nodes, key, value) == nodes[i := Node(key, value)]
  {
    if i == 0 {
    } else {
      FirstInTail(nodes, key, i);
      FoundReplaced(nodes[1..], key, value, i - 1);
    }
  }

  lemma {:induction false} FoundDeleted(nodes: seq<Node>, key: string, i: nat)
    requires FirstAt(nodes, key, i) && i < |nodes|
    ensures Delete(nodes, key) == nodes[..i] + nodes[i + 1..]
  {
    if i == 0 {
    } else {
      FirstInTail(nodes, key, i);
      FoundDeleted(nodes[1..], key, i - 1);
      HeadCut(nodes, i);
    }
  }

  lemma HeadCut(nodes: seq<Node>, i: nat)
    requires 0 < i < |nodes|
    ensures nodes[..i] + nodes[i + 1..] == [nodes[0]] + (nodes[1..][..i - 1] + nodes[1..][i..])
  {}

  /** What the position of the first node for a key says about the bucket functions. */
  lemma FoundAt(nodes: seq<Node>, key: string, value: Value, i: nat)
    requires FirstAt(nodes, key, i)
    ensures FindKey(nodes, key) == if i < |nodes| then Some(nodes[i].value) else None
    ensures i < |nodes| ==> Replace(nodes, key, value) == nodes[i := Node(key, value)]
    ensures i < |nodes| ==> Delete(nodes, key) == nodes[..i] + nodes[i + 1..]
  {
    FoundValue(nodes, key, i);
    if i < |nodes| {
      FoundReplaced(nodes, key, value, i);
      FoundDeleted(nodes, key, i);
    }
  }

  lemma {:induction false} PutAllSnoc(bs: Buckets, nodes: seq<Node>, node: Node)
    requires bs != []
    ensures PutAll(bs, nodes + [node]) == Put(PutAll(bs, nodes), node)
    decreases |nodes|
  {
    if nodes != [] {
      PutAllSnoc(Put(bs, nodes[0]), nodes[1..], node);
      assert (nodes + [node])[1..] == nodes[1..] + [node];
    } else {
      assert nodes + [node] == [node];
    }
  }

  lemma {:induction false} AllSnoc(bs: Buckets, i: nat)
    requires i < |bs|
    ensures All(bs[..i + 1]) == All(bs[..i]) + bs[i]
  {
    if i == 0 {
      assert bs[..1][1..] == [];
    } else {
      AllSnoc(bs[1..], i - 1);
      assert bs[..i + 1][1..] == bs[1..][..i] && bs[..i][1..] == bs[1..][..i - 1];
    }
  }

  class HashTable {
    var buckets: Buckets
    var size: nat

    ghost function View(): Map
      reads this
    {
      Map(buckets, size)
    }

    constructor ()
      ensures View() == Map(EmptyBuckets(INIT_SIZE), 0)
    {
      new;
      MakeBuckets(INIT_SIZE);
      size := 0;
    }

    method MakeBuckets(n: nat)
      modifies `buckets
      ensures buckets == EmptyBuckets(n)
    {
      buckets := [];
      var i := 0;
      while i < n
        invariant i <= n && buckets == EmptyBuckets(i)
      {
        buckets := buckets + [[]];
        i := i + 1;
      }
    }

    method Resize(grow: bool)
      requires |buckets| >= 2
      modifies `buckets
      ensures buckets == Rehash(old(buckets), grow)
    {
      var oldBuckets := buckets;
      var oldSize := |oldBuckets|;
      ghost var n := if grow then oldSize * 2 else oldSize / 2;
      MakeBuckets(if grow then oldSize * 2 else oldSize / 2);
      var i := 0;
      while i < oldSize
        invariant i <= oldSize && buckets == PutAll(EmptyBuckets(n), All(oldBuckets[..i]))
      {
        PushNodes(oldBuckets[i], EmptyBuckets(n), All(oldBuckets[..i]));
        AllSnoc(oldBuckets, i);
        i := i + 1;
      }
      assert oldBuckets[..i] == oldBuckets;
    }

    /** The inner loop: every node of one old bucket goes to its new one. */
    method PushNodes(nodes: seq<Node>, ghost start: Buckets, ghost before: seq<Node>)
      requires start != [] && buckets == PutAll(start, before)
      modifies `buckets
      ensures buckets == PutAll(start, before + nodes)
    {
      var j := 0;
      assert before + nodes[..0] == before;
      while j < |nodes|
        invariant j <= |nodes| && buckets == PutAll(start, before + nodes[..j])
      {
        PutAllSnoc(start, before + nodes[..j], nodes[j]);
        assert before + nodes[..j] + [nodes[j]] == before + nodes[..j + 1];
        var b := BucketIndex(nodes[j].key, |buckets|);
        buckets := buckets[b := buckets[b] + [nodes[j]]];
        j := j + 1;
      }
      assert nodes[..j] == nodes;
    }

    method FindNode(b: nat, key: string) returns (i: nat)
      requires b < |buckets|
      ensures var nodes := buckets[b];
              && i <= |nodes| && (i < |nodes| ==> nodes[i].key == key)
              && forall j :: 0 <= j < i ==> nodes[j].key != key
    {
      i := 0;
      while i < |buckets[b]| && buckets[b][i].key != key
        invariant i <= |buckets[b]|
        invariant forall j :: 0 <= j < i ==> buckets[b][j].key != key
      {
        i := i + 1;
      }
    }

    method Set(key: string, value: Value)
      requires |buckets| >= INIT_SIZE
      modifies this
      ensures View() == WithKey(old(View()), key, value)
    {
      var b := BucketIndex(key, |buckets|);
      var i := FindNode(b, key);
      FoundAt(buckets[b], key, value, i);
      if i < |buckets[b]| {
        buckets := buckets[b := buckets[b][i := Node(key, value)]];
      } else {
        if TooFull(size, |buckets|) {
          Resize(true);
          b := BucketIndex(key, |buckets|);
        }
        buckets := buckets[b := buckets[b] + [Node(key, value)]];
        size := size + 1;
      }
    }

    method Get(key: string) returns (value: Option<Value>)
      requires buckets != []
      ensures value == ValueOf(View(), key)
    {
      var b := BucketIndex(key, |buckets|);
      var i := FindNode(b, key);
      FoundAt(buckets[b], key, 0, i);
      value := if i < |buckets[b]| then Some(buckets[b][i].value) else None;
    }

    /** `size` counts the nodes, so it is not 0 when a node goes. */
    method Remove(key: string) returns (removed: bool)
      requires |buckets| >= INIT_SIZE && size == |All(buckets)|
      modifies this
      ensures View() == WithoutKey(old(View()), key)
      ensures removed == ValueOf(old(View()), key).Some?
    {
      var b := BucketIndex(key, |buckets|);
      var i := FindNode(b, key);
      FoundAt(buckets[b], key, 0, i);
      removed := i < |buckets[b]|;
      if removed {
        AllLength(buckets, b, []);
        buckets := buckets[b := buckets[b][..i] + buckets[b][i + 1..]];
        size := size - 1;
        if |buckets| > INIT_SIZE {
          if TooEmpty(size, |buckets|) {
            Resize(false);
          }
        }
      }
    }
  }
}
