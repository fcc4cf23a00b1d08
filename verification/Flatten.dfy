/** `flatten_properties`: a JSON tree as rows of a key, an ordinal and a scalar. */
module Flatten {

  datatype Member = Member(key: string, value: Json)

  /** A scalar is a boolean, a number or a string; which one does not matter here. */
  datatype Json = Null | Scalar(scalar: int) | Array(items: seq<Json>) | Object(members: seq<Member>)

  datatype Entry = Entry(key: string, ordinal: nat, value: int)

  /** The decimal text of an ordinal. */
  function Digits(n: nat): (s: string)
    ensures s != "" && forall i :: 0 <= i < |s| ==> '0' <= s[i] <= '9'
  {
    if n < 10 then [Digit(n)] else Digits(n / 10) + [Digit(n % 10)]
  }

  function Digit(n: nat): (c: char)
    requires n < 10
    ensures '0' <= c <= '9'
  {
    ('0' as int + n) as char
  }

  lemma {:induction false} DigitsInjective(n: nat, m: nat)
    requires Digits(n) == Digits(m)
    ensures n == m
  {
    var s, t := Digits(n), Digits(m);
    assert s[|s| - 1] == Digit(n % 10) && t[|t| - 1] == Digit(m % 10);
    if n >= 10 && m >= 10 {
      assert s[..|s| - 1] == Digits(n / 10) && t[..|t| - 1] == Digits(m / 10);
      DigitsInjective(n / 10, m / 10);
    }
  }

  // ----- the specification -----

  /** Children: members of an object, items of an array. */
  function Width(v: Json): nat {
    match v
    case Array(items) => |items|
    case Object(members) => |members|
    case _ => 0
  }

  function Child(v: Json, i: nat): (c: Json)
    requires i < Width(v)
    ensures c < v
  {
    match v
    case Array(items) => items[i]
    case Object(members) => assert members[i] < v; members[i].value
  }

  /** The text that a child adds to the prefix. */
  function Segment(v: Json, i: nat): string
    requires i < Width(v)
  {
    match v
    case Array(_) => Digits(i)
    case Object(members) => members[i].key
  }

  function Flat(prefix: string, v: Json): seq<Entry>
    decreases v, 1, 0
  {
    match v
    case Null => []
    case Scalar(x) => [Entry(prefix, 0, x)]
    case _ => FlatChildren(prefix, v, Width(v))
  }

  function FlatChildren(prefix: string, v: Json, n: nat): seq<Entry>
    requires n <= Width(v)
    decreases v, 0, n
  {
    if n == 0 then [] else FlatChildren(prefix, v, n - 1) + FlatChild(prefix, v, n - 1)
  }

  /** A scalar in an array keeps the prefix of the array and is told by its ordinal. */
  function FlatChild(prefix: string, v: Json, i: nat): seq<Entry>
    requires i < Width(v)
    decreases v, 0, i
  {
    var c := Child(v, i);
    if v.Array? && c.Scalar? then [Entry(prefix, i, c.scalar)] else Flat(prefix + "." + Segment(v, i), c)
  }

  /** The function itself, which pushes into an output vector. */
  method FlattenProperties(prefix: string, v: Json, output: seq<Entry>) returns (output': seq<Entry>)
    ensures output' == output + Flat(prefix, v)
    decreases v
  {
    output' := output;
    match v {
      case Object(members) =>
        var i := 0;
        while i < |members|
          invariant 0 <= i <= |members|
          invariant output' == output + FlatChildren(prefix, v, i)
        {
          assert Child(v, i) < v;
          output' := FlattenProperties(prefix + "." + members[i].key, members[i].value, output');
          i := i + 1;
        }
      case Array(items) =>
        var ordinal := 0;
        while ordinal < |items|
          invariant 0 <= ordinal <= |items|
          invariant output' == output + FlatChildren(prefix, v, ordinal)
        {
          assert Child(v, ordinal) < v;
          match items[ordinal] {
            case Null => assert FlatChild(prefix, v, ordinal) == [];
            case Scalar(x) => output' := output' + [Entry(prefix, ordinal, x)];
            case _ => output' := FlattenProperties(prefix + "." + Digits(ordinal), items[ordinal], output');
          }
          ordinal := ordinal + 1;
        }
      case Null =>
      case Scalar(x) => output' := output' + [Entry(prefix, 0, x)];
    }
  }

  // ----- leaves -----

  /** A path picks a child at each level; a leaf path ends at a scalar. */
  predicate IsLeaf(v: Json, path: seq<nat>) {
    if path == [] then v.Scalar? else path[0] < Width(v) && IsLeaf(Child(v, path[0]), path[1..])
  }

  function LeafValue(v: Json, path: seq<nat>): int
    requires IsLeaf(v, path)
  {
    if path == [] then v.scalar else LeafValue(Child(v, path[0]), path[1..])
  }

  /** The key and the ordinal under which a leaf is stored. */
  function Address(prefix: string, v: Json, path: seq<nat>): (string, nat)
    requires IsLeaf(v, path)
    decreases |path|
  {
    if path == [] then (prefix, 0)
    else if v.Array? && |path| == 1 then (prefix, path[0])
    else Address(prefix + "." + Segment(v, path[0]), Child(v, path[0]), path[1..])
  }

  function EntryOf(prefix: string, v: Json, path: seq<nat>): Entry
    requires IsLeaf(v, path)
  {
    var address := Address(prefix, v, path);
    Entry(address.0, address.1, LeafValue(v, path))
  }

  /** The leaf paths in document order. */
  function Leaves(v: Json): seq<seq<nat>>
    decreases v, 1, 0
  {
    if v.Scalar? then [[]] else LeavesOfChildren(v, Width(v))
  }

  function LeavesOfChildren(v: Json, n: nat): seq<seq<nat>>
    requires n <= Width(v)
    decreases v, 0, n
  {
    if n == 0 then [] else LeavesOfChildren(v, n - 1) + Under(n - 1, Leaves(Child(v, n - 1)))
  }

  function Under(i: nat, paths: seq<seq<nat>>): (r: seq<seq<nat>>)
    ensures |r| == |paths| && forall k :: 0 <= k < |paths| ==> r[k] == [i] + paths[k]
  {
    seq(|paths|, k requires 0 <= k < |paths| => [i] + paths[k])
  }

  ghost predicate Lists(v: Json, paths: seq<seq<nat>>) {
    forall k :: 0 <= k < |paths| ==> IsLeaf(v, paths[k])
  }

  ghost predicate Matches(prefix: string, v: Json, paths: seq<seq<nat>>, entries: seq<Entry>) {
    |entries| == |paths| && Lists(v, paths) && forall k :: 0 <= k < |paths| ==> entries[k] == EntryOf(prefix, v, paths[k])
  }

  lemma MatchesConcat(prefix: string, v: Json, p: seq<seq<nat>>, e: seq<Entry>, q: seq<seq<nat>>, f: seq<Entry>)
    requires Matches(prefix, v, p, e) && Matches(prefix, v, q, f)
    ensures Matches(prefix, v, p + q, e + f)
  {
  }

  /** The output lists the leaves in document order, one entry for each. */
  lemma {:induction false} EntriesAreLeaves(prefix: string, v: Json)
    ensures Matches(prefix, v, Leaves(v), Flat(prefix, v))
    decreases v, 1, 0
  {
    if !v.Scalar? { ChildEntriesAreLeaves(prefix, v, Width(v)); }
  }

  lemma {:induction false} ChildEntriesAreLeaves(prefix: string, v: Json, n: nat)
    requires n <= Width(v)
    ensures Matches(prefix, v, LeavesOfChildren(v, n), FlatChildren(prefix, v, n))
    decreases v, 0, n
  {
    if n > 0 {
      ChildEntriesAreLeaves(prefix, v, n - 1);
      OneChildMatches(prefix, v, n - 1);
      MatchesConcat(prefix, v, LeavesOfChildren(v, n - 1), FlatChildren(prefix, v, n - 1),
                    Under(n - 1, Leaves(Child(v, n - 1))), FlatChild(prefix, v, n - 1));
    }
  }

  lemma {:induction false} OneChildMatches(prefix: string, v: Json, i: nat)
    requires i < Width(v)
    ensures Matches(prefix, v, Under(i, Leaves(Child(v, i))), FlatChild(prefix, v, i))
    decreases v, 0, i
  {
    var c := Child(v, i);
    var inner := prefix + "." + Segment(v, i);
    EntriesAreLeaves(inner, c);
    var below := Leaves(c);
    var paths := Under(i, below);
    forall k | 0 <= k < |paths| ensures IsLeaf(v, paths[k]) && LeafValue(v, paths[k]) == LeafValue(c, below[k])
      && (!(v.Array? && c.Scalar?) ==> Address(prefix, v, paths[k]) == Address(inner, c, below[k]))
    {
      assert paths[k][1..] == below[k] && paths[k][0] == i;
    }
  }

  /** Every leaf is listed, and once. */
  lemma {:induction false} LeavesComplete(v: Json, path: seq<nat>)
    requires IsLeaf(v, path)
    ensures path in Leaves(v)
    decreases v, 1, 0
  {
    if path != [] { LeavesOfChildrenComplete(v, Width(v), path); }
  }

  lemma {:induction false} LeavesOfChildrenComplete(v: Json, n: nat, path: seq<nat>)
    requires n <= Width(v) && path != [] && IsLeaf(v, path) && path[0] < n
    ensures path in LeavesOfChildren(v, n)
    decreases v, 0, n
  {
    if path[0] < n - 1 {
      LeavesOfChildrenComplete(v, n - 1, path);
    } else {
      var below := Leaves(Child(v, n - 1));
      LeavesComplete(Child(v, n - 1), path[1..]);
      var k :| 0 <= k < |below| && below[k] == path[1..];
      assert Under(n - 1, below)[k] == path;
    }
  }

  // ----- addresses tell leaves apart -----

  predicate DotFree(s: string) { '.' !in s }

  /** k', read as a path, starts with k and a dot. */
  predicate DottedPrefix(k: string, k': string) {
    |k| < |k'| && k'[..|k|] == k && k'[|k|] == '.'
  }

  /** Distinct keys, as in every JSON map, and none is a dotted prefix of another. */
  ghost predicate SafeKeys(keys: seq<string>) {
    forall i, j :: 0 <= i < |keys| && 0 <= j < |keys| ==> (i != j ==> keys[i] != keys[j]) && !DottedPrefix(keys[i], keys[j])
  }

  /** Field names, which contain no dot, are safe. */
  lemma DotFreeKeysAreSafe(keys: seq<string>)
    requires forall i, j :: 0 <= i < j < |keys| ==> keys[i] != keys[j]
    requires forall i :: 0 <= i < |keys| ==> DotFree(keys[i])
    ensures SafeKeys(keys)
  {
  }

  function KeysOf(v: Json): (r: seq<string>)
    requires v.Object?
    ensures |r| == |v.members| && forall i :: 0 <= i < |r| ==> r[i] == v.members[i].key
  {
    seq(|v.members|, i requires 0 <= i < |v.members| => v.members[i].key)
  }

  /** Every object of the tree has safe keys. */
  ghost predicate Plain(v: Json)
    decreases v
  {
    (v.Object? ==> SafeKeys(KeysOf(v))) && PlainChildren(v)
  }

  ghost predicate PlainChildren(v: Json)
    decreases v, 0
  {
    forall i: nat :: i < Width(v) ==> Plain(Child(v, i))
  }

  predicate DotOrEnd(s: string) { s == "" || s[0] == '.' }

  lemma DigitsHaveNoDot(i: nat)
    ensures DotFree(Digits(i))
  {
  }

  lemma SegmentsDiffer(v: Json, i: nat, j: nat)
    requires Plain(v) && i < Width(v) && j < Width(v)
    ensures !DottedPrefix(Segment(v, i), Segment(v, j))
    ensures Segment(v, i) == Segment(v, j) ==> i == j
  {
    if v.Array? {
      DigitsHaveNoDot(j);
      if Segment(v, i) == Segment(v, j) { DigitsInjective(i, j); }
    } else {
      assert KeysOf(v)[i] == Segment(v, i) && KeysOf(v)[j] == Segment(v, j);
    }
  }

  /** What the path adds to the prefix. */
  function Tail(v: Json, path: seq<nat>): (tail: string)
    requires IsLeaf(v, path)
    ensures DotOrEnd(tail)
    decreases |path|
  {
    if path == [] || (v.Array? && |path| == 1) then ""
    else "." + Segment(v, path[0]) + Tail(Child(v, path[0]), path[1..])
  }

  lemma {:induction false} KeyExtends(prefix: string, v: Json, path: seq<nat>)
    requires IsLeaf(v, path)
    ensures Address(prefix, v, path).0 == prefix + Tail(v, path)
    decreases |path|
  {
    if path != [] && !(v.Array? && |path| == 1) {
      KeyExtends(prefix + "." + Segment(v, path[0]), Child(v, path[0]), path[1..]);
    } else {
      assert prefix + "" == prefix;
    }
  }

  lemma LongerIsDotted(a: string, b: string, s: string, t: string)
    requires |b| < |a| && DotOrEnd(t) && a + s == b + t
    ensures DottedPrefix(b, a)
  {
    assert a == (a + s)[..|a|] && (b + t)[..|b|] == b;
    assert a[..|b|] == (b + t)[..|b|];
    assert a[|b|] == (b + t)[|b|] == t[0];
  }

  lemma NotLonger(a: string, b: string, s: string, t: string)
    requires !DottedPrefix(b, a) && DotOrEnd(t) && a + s == b + t
    ensures |a| <= |b|
  {
    if |b| < |a| { LongerIsDotted(a, b, s, t); }
  }

  lemma SegmentsCompare(prefix: string, a: string, b: string, s: string, t: string)
    requires !DottedPrefix(a, b) && !DottedPrefix(b, a) && DotOrEnd(s) && DotOrEnd(t)
    requires prefix + "." + a + s == prefix + "." + b + t
    ensures a == b
  {
    var n := |prefix| + 1;
    assert (prefix + "." + a + s)[n..] == a + s && (prefix + "." + b + t)[n..] == b + t;
    NotLonger(a, b, s, t);
    NotLonger(b, a, t, s);
    assert (a + s)[..|a|] == a && (b + t)[..|b|] == b;
  }

  /** On a tree whose objects all have safe keys, the key and the ordinal identify the leaf. */
  lemma {:induction false} AddressInjective(prefix: string, v: Json, p: seq<nat>, q: seq<nat>)
    requires Plain(v) && IsLeaf(v, p) && IsLeaf(v, q) && Address(prefix, v, p) == Address(prefix, v, q)
    ensures p == q
    decreases |p|
  {
    if p != [] && q != [] {
      var i, j := p[0], q[0];
      if v.Array? && (|p| == 1 || |q| == 1) {
        if |p| == 1 && |q| > 1 { DeeperKeyIsLonger(prefix, v, q); }
        if |q| == 1 && |p| > 1 { DeeperKeyIsLonger(prefix, v, p); }
      } else {
        SameChild(prefix, v, p, q);
        AddressInjective(prefix + "." + Segment(v, i), Child(v, i), p[1..], q[1..]);
      }
      assert p == [p[0]] + p[1..] && q == [q[0]] + q[1..];
    }
  }

  lemma DeeperKeyIsLonger(prefix: string, v: Json, q: seq<nat>)
    requires IsLeaf(v, q) && |q| > 1
    ensures Address(prefix, v, q).0 != prefix
  {
    KeyExtends(prefix + "." + Segment(v, q[0]), Child(v, q[0]), q[1..]);
    assert |Address(prefix, v, q).0| > |prefix|;
  }

  lemma SameChild(prefix: string, v: Json, p: seq<nat>, q: seq<nat>)
    requires Plain(v) && IsLeaf(v, p) && IsLeaf(v, q) && p != [] && q != [] && !(v.Array? && (|p| == 1 || |q| == 1))
    requires Address(prefix, v, p).0 == Address(prefix, v, q).0
    ensures p[0] == q[0]
  {
    KeyExtends(prefix + "." + Segment(v, p[0]), Child(v, p[0]), p[1..]);
    KeyExtends(prefix + "." + Segment(v, q[0]), Child(v, q[0]), q[1..]);
    SegmentsDiffer(v, p[0], q[0]);
    SegmentsDiffer(v, q[0], p[0]);
    SegmentsCompare(prefix, Segment(v, p[0]), Segment(v, q[0]), Tail(Child(v, p[0]), p[1..]), Tail(Child(v, q[0]), q[1..]));
  }

  /** No two rows have the same primary key. */
  ghost predicate TellsApart(out: seq<Entry>) {
    forall i, j :: 0 <= i < j < |out| ==> (out[i].key, out[i].ordinal) != (out[j].key, out[j].ordinal)
  }

  /** Flattening loses and merges nothing: for every tree whose objects have safe keys the
      output has one entry for each non-null scalar leaf, with its value, and no two entries
      share key and ordinal, so the table's primary key never rejects or merges a row. */
  lemma FlatteningExact(prefix: string, v: Json)
    requires Plain(v)
    ensures Matches(prefix, v, Leaves(v), Flat(prefix, v))
    ensures forall path :: IsLeaf(v, path) <==> path in Leaves(v)
    ensures TellsApart(Flat(prefix, v))
  {
    EntriesAreLeaves(prefix, v);
    forall path | IsLeaf(v, path) ensures path in Leaves(v) { LeavesComplete(v, path); }
    var out, paths := Flat(prefix, v), Leaves(v);
    LeavesDistinct(v);
    forall i, j | 0 <= i < j < |out| ensures (out[i].key, out[i].ordinal) != (out[j].key, out[j].ordinal) {
      if (out[i].key, out[i].ordinal) == (out[j].key, out[j].ordinal) {
        AddressInjective(prefix, v, paths[i], paths[j]);
      }
    }
  }

  ghost predicate Distinct(paths: seq<seq<nat>>) {
    forall i, j :: 0 <= i < j < |paths| ==> paths[i] != paths[j]
  }

  lemma {:induction false} LeavesDistinct(v: Json)
    ensures Distinct(Leaves(v))
    decreases v, 1, 0
  {
    if !v.Scalar? { ChildLeavesDistinct(v, Width(v)); }
  }

  lemma {:induction false} ChildLeavesDistinct(v: Json, n: nat)
    requires n <= Width(v)
    ensures Distinct(LeavesOfChildren(v, n))
    ensures forall k :: 0 <= k < |LeavesOfChildren(v, n)| ==> LeavesOfChildren(v, n)[k] != [] && LeavesOfChildren(v, n)[k][0] < n
    decreases v, 0, n
  {
    if n > 0 {
      ChildLeavesDistinct(v, n - 1);
      LeavesDistinct(Child(v, n - 1));
      UnderDistinct(n - 1, Leaves(Child(v, n - 1)));
    }
  }

  lemma UnderDistinct(i: nat, paths: seq<seq<nat>>)
    requires Distinct(paths)
    ensures Distinct(Under(i, paths))
  {
    var r := Under(i, paths);
    forall a, b | 0 <= a < b < |r| ensures r[a] != r[b] {
      assert r[a][1..] == paths[a] && r[b][1..] == paths[b];
    }
  }

  // ----- the condition on keys is exact -----

  ghost predicate HasKeys(v: Json, keys: seq<string>) {
    v.Object? && KeysOf(v) == keys && PlainChildren(v)
  }

  /** Two leaves with one address make two rows with one primary key. */
  lemma SameAddressCollides(prefix: string, v: Json, p: seq<nat>, q: seq<nat>)
    requires IsLeaf(v, p) && IsLeaf(v, q) && p != q && Address(prefix, v, p) == Address(prefix, v, q)
    ensures !TellsApart(Flat(prefix, v))
  {
    EntriesAreLeaves(prefix, v);
    LeavesComplete(v, p);
    LeavesComplete(v, q);
    var out, paths := Flat(prefix, v), Leaves(v);
    var x :| 0 <= x < |paths| && paths[x] == p;
    var y :| 0 <= y < |paths| && paths[y] == q;
    var i, j := if x < y then x else y, if x < y then y else x;
    assert (out[i].key, out[i].ordinal) == (out[j].key, out[j].ordinal);
  }

  /** An object over the keys in which key i holds {s: 1}, key j holds 1 and the others null. */
  function Colliding(keys: seq<string>, i: nat, j: nat, s: string): Json {
    Object(seq(|keys|, n requires 0 <= n < |keys| =>
      Member(keys[n], if n == i then Object([Member(s, Scalar(1))]) else if n == j then Scalar(1) else Null)))
  }

  lemma CollidingHasKeys(keys: seq<string>, i: nat, j: nat, s: string)
    ensures HasKeys(Colliding(keys, i, j, s), keys)
  {
    var v := Colliding(keys, i, j, s);
    forall n: nat | n < Width(v) ensures Plain(Child(v, n)) {
      var c := Child(v, n);
      if c.Object? {
        assert c == Object([Member(s, Scalar(1))]);
        assert KeysOf(c) == [s];
        assert forall m: nat :: m < Width(c) ==> Child(c, m) == Scalar(1);
      }
    }
  }

  lemma DottedPrefixCollides(prefix: string, keys: seq<string>, i: nat, j: nat)
    requires i < |keys| && j < |keys| && DottedPrefix(keys[i], keys[j])
    ensures !TellsApart(Flat(prefix, Colliding(keys, i, j, keys[j][|keys[i]| + 1..])))
  {
    var k, k' := keys[i], keys[j];
    var s := k'[|k| + 1..];
    var v := Colliding(keys, i, j, s);
    assert k' == k + "." + s;
    var inner := Child(v, i);
    assert inner == Object([Member(s, Scalar(1))]) && Child(v, j) == Scalar(1);
    assert [i, 0][1..] == [0] && [0][1..] == [] && [j][1..] == [];
    assert IsLeaf(inner, [0]) && IsLeaf(v, [i, 0]) && IsLeaf(v, [j]);
    assert Address(prefix + "." + k, inner, [0]) == (prefix + "." + k + "." + s, 0);
    assert Address(prefix, v, [i, 0]) == Address(prefix + "." + k, inner, [0]);
    assert Address(prefix, v, [j]) == (prefix + "." + k', 0);
    assert prefix + "." + k + "." + s == prefix + "." + k';
    SameAddressCollides(prefix, v, [i, 0], [j]);
  }

  /** For any distinct keys of an object: flattening tells the leaves apart whatever sound
      values the keys hold, if and only if no key is a dotted prefix of another. */
  lemma KeysExactly(prefix: string, keys: seq<string>)
    requires forall i, j :: 0 <= i < j < |keys| ==> keys[i] != keys[j]
    ensures SafeKeys(keys) <==> forall v :: HasKeys(v, keys) ==> TellsApart(Flat(prefix, v))
  {
    if SafeKeys(keys) {
      forall v | HasKeys(v, keys) ensures TellsApart(Flat(prefix, v)) { FlatteningExact(prefix, v); }
    } else {
      var i: nat, j: nat :| i < |keys| && j < |keys| && DottedPrefix(keys[i], keys[j]);
      DottedPrefixCollides(prefix, keys, i, j);
      CollidingHasKeys(keys, i, j, keys[j][|keys[i]| + 1..]);
    }
  }
}
