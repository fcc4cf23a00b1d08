/** Text as the encodings use it: joining, splitting, order, sorting, whitespace and case. */
module Strings {
  import opened Wrappers

  // ----- joining -----

  function Join(parts: seq<string>, sep: string): string {
    if parts == [] then "" else if |parts| == 1 then parts[0] else parts[0] + sep + Join(parts[1..], sep)
  }

  predicate OccursAt(s: string, sep: string, i: nat) {
    i + |sep| <= |s| && s[i..i + |sep|] == sep
  }

  /** The separator does not occur in x, nor in x followed by the separator before its end. */
  ghost predicate Apart(x: string, sep: string) {
    forall i: nat :: i < |x| ==> !OccursAt(x + sep, sep, i)
  }

  lemma CharApart(x: string, c: char)
    requires c !in x
    ensures Apart(x, [c])
  {
    forall i: nat | i < |x| ensures !OccursAt(x + [c], [c], i) {
      assert (x + [c])[i..i + 1][0] == x[i];
    }
  }

  /** A separator that starts inside y and ends within y + sep contradicts Apart. */
  lemma SeparatorInside(x: string, r: string, y: string, whole: string, sep: string)
    requires sep != "" && |x| < |y| && whole == x + sep + r && y + sep <= whole
    ensures !Apart(y, sep)
  {
    var n := |x|;
    assert whole[n..n + |sep|] == sep;
    assert (y + sep)[n..n + |sep|] == whole[n..n + |sep|];
    assert OccursAt(y + sep, sep, n);
  }

  /** The first part of a joined text ends where the separator first occurs. */
  lemma FirstPart(x: string, r: string, y: string, t: string, sep: string)
    requires sep != "" && Apart(x, sep) && Apart(y, sep) && x + sep + r == y + sep + t
    ensures x == y && r == t
  {
    if |x| < |y| { SeparatorInside(x, r, y, y + sep + t, sep); }
    if |y| < |x| { SeparatorInside(y, t, x, x + sep + r, sep); }
    SameLengthParts(x, r, y, t, sep);
  }

  lemma SameLengthParts(x: string, r: string, y: string, t: string, sep: string)
    requires |x| == |y| && x + sep + r == y + sep + t
    ensures x == y && r == t
  {
    assert x == (x + sep + r)[..|x|] && y == (y + sep + t)[..|y|];
    assert r == (x + sep + r)[|x| + |sep|..] && t == (y + sep + t)[|y| + |sep|..];
  }

  ghost predicate Parts(parts: seq<string>, sep: string) {
    forall i :: 0 <= i < |parts| ==> parts[i] != "" && Apart(parts[i], sep)
  }

  /** Parts that the separator stays out of can be read back from the joined text. */
  lemma {:induction false} JoinInjective(xs: seq<string>, ys: seq<string>, sep: string)
    requires sep != "" && Parts(xs, sep) && Parts(ys, sep) && Join(xs, sep) == Join(ys, sep)
    ensures xs == ys
  {
    if |xs| >= 2 && |ys| >= 2 {
      FirstPart(xs[0], Join(xs[1..], sep), ys[0], Join(ys[1..], sep), sep);
      JoinInjective(xs[1..], ys[1..], sep);
      assert xs == [xs[0]] + xs[1..] && ys == [ys[0]] + ys[1..];
    } else if |xs| >= 2 {
      if |ys| == 1 { OneIsNotMore(ys[0], xs[0], Join(xs[1..], sep), sep); }
    } else if |ys| >= 2 {
      if |xs| == 1 { OneIsNotMore(xs[0], ys[0], Join(ys[1..], sep), sep); }
    } else {
      assert |xs| == |ys|;
    }
  }

  lemma OneIsNotMore(y: string, x: string, r: string, sep: string)
    requires sep != "" && y == x + sep + r
    ensures !Apart(y, sep)
  {
    assert y + sep == x + sep + (r + sep);
    SeparatorInside(x, r + sep, y, y + sep, sep);
  }

  // ----- optional texts -----

  function One(text: Option<string>): seq<string> { if text.Some? then [text.value] else [] }

  /** The texts that are there among the first n. */
  function PresentTo(texts: seq<Option<string>>, n: nat): seq<string>
    requires n <= |texts|
  {
    if n == 0 then [] else PresentTo(texts, n - 1) + One(texts[n - 1])
  }

  /** `filter_map`, in effect. */
  function Present(texts: seq<Option<string>>): seq<string> { PresentTo(texts, |texts|) }

  lemma {:induction false} PresentMembers(texts: seq<Option<string>>, n: nat, x: string)
    requires n <= |texts|
    ensures x in PresentTo(texts, n) <==> exists i :: 0 <= i < n && texts[i] == Some(x)
  {
    if n > 0 { PresentMembers(texts, n - 1, x); }
  }

  lemma {:induction false} PresentFirst(a: seq<Option<string>>, b: seq<Option<string>>, n: nat)
    requires n <= |a|
    ensures PresentTo(a + b, n) == PresentTo(a, n)
  {
    if n > 0 { PresentFirst(a, b, n - 1); }
  }

  lemma {:induction false} PresentMore(a: seq<Option<string>>, b: seq<Option<string>>, n: nat)
    requires n <= |b|
    ensures PresentTo(a + b, |a| + n) == Present(a) + PresentTo(b, n)
  {
    if n > 0 { PresentMore(a, b, n - 1); } else { PresentFirst(a, b, |a|); }
  }

  /** The text of each element, by a function that nothing is known about here. */
  function Each<S>(xs: seq<S>, textOf: S -> Option<string>): (r: seq<Option<string>>)
    ensures |r| == |xs| && forall i :: 0 <= i < |xs| ==> r[i] == textOf(xs[i])
  {
    seq(|xs|, i requires 0 <= i < |xs| => textOf(xs[i]))
  }

  lemma EachMore<S>(a: seq<S>, b: seq<S>, textOf: S -> Option<string>)
    ensures Present(Each(a + b, textOf)) == Present(Each(a, textOf)) + Present(Each(b, textOf))
  {
    assert Each(a + b, textOf) == Each(a, textOf) + Each(b, textOf);
    PresentMore(Each(a, textOf), Each(b, textOf), |b|);
  }

  lemma EachPresent<S>(xs: seq<S>, textOf: S -> Option<string>, x: string)
    ensures x in Present(Each(xs, textOf)) <==> exists s :: s in xs && textOf(s) == Some(x)
  {
    PresentMembers(Each(xs, textOf), |xs|, x);
    forall s | s in xs && textOf(s) == Some(x) ensures exists i :: 0 <= i < |xs| && Each(xs, textOf)[i] == Some(x) {
      var i :| 0 <= i < |xs| && xs[i] == s;
      assert Each(xs, textOf)[i] == Some(x);
    }
  }

  // ----- splitting -----

  /** `str::split` at a character: one part more than there are separators. */
  function Split(s: string, c: char): (parts: seq<string>)
    ensures parts != []
  {
    if s == "" then [""]
    else
      var rest := Split(s[1..], c);
      if s[0] == c then [""] + rest else [[s[0]] + rest[0]] + rest[1..]
  }

  /** `str::split_once`. */
  function SplitOnce(s: string, c: char): Option<(string, string)> {
    if s == "" then None
    else if s[0] == c then Some(("", s[1..]))
    else
      var rest := SplitOnce(s[1..], c);
      if rest.None? then None else Some(([s[0]] + rest.value.0, rest.value.1))
  }

  // ----- order and sorting -----

  /** Lexicographic order by code point, which is the byte order of UTF-8 text. */
  predicate Leq(a: string, b: string) {
    a == "" || (b != "" && (a[0] < b[0] || (a[0] == b[0] && Leq(a[1..], b[1..]))))
  }

  lemma {:induction false} LeqTotal(a: string, b: string)
    ensures Leq(a, b) || Leq(b, a)
  {
    if a != "" && b != "" && a[0] == b[0] { LeqTotal(a[1..], b[1..]); }
  }

  lemma {:induction false} LeqAntisymmetric(a: string, b: string)
    requires Leq(a, b) && Leq(b, a)
    ensures a == b
  {
    if a != "" && b != "" {
      LeqAntisymmetric(a[1..], b[1..]);
      assert a == [a[0]] + a[1..] && b == [b[0]] + b[1..];
    }
  }

  lemma {:induction false} LeqTransitive(a: string, b: string, c: string)
    requires Leq(a, b) && Leq(b, c)
    ensures Leq(a, c)
  {
    if a != "" && a[0] == b[0] && b[0] == c[0] { LeqTransitive(a[1..], b[1..], c[1..]); }
  }

  predicate SortedBy<T>(xs: seq<T>, key: T -> string) {
    forall i, j :: 0 <= i < j < |xs| ==> Leq(key(xs[i]), key(xs[j]))
  }

  /** A stable sort. */
  function SortBy<T>(xs: seq<T>, key: T -> string): seq<T> {
    if xs == [] then [] else Insert(xs[0], SortBy(xs[1..], key), key)
  }

  function Insert<T>(x: T, xs: seq<T>, key: T -> string): seq<T> {
    if xs == [] || Leq(key(x), key(xs[0])) then [x] + xs else [xs[0]] + Insert(x, xs[1..], key)
  }

  lemma {:induction false} InsertSorts<T>(x: T, xs: seq<T>, key: T -> string)
    requires SortedBy(xs, key)
    ensures SortedBy(Insert(x, xs, key), key) && multiset(Insert(x, xs, key)) == multiset(xs) + multiset{x}
  {
    if xs == [] {
    } else if Leq(key(x), key(xs[0])) {
      forall j | 0 <= j < |xs| ensures Leq(key(x), key(xs[j])) {
        if j > 0 { LeqTransitive(key(x), key(xs[0]), key(xs[j])); }
      }
    } else {
      LeqTotal(key(x), key(xs[0]));
      InsertSorts(x, xs[1..], key);
      var rest := Insert(x, xs[1..], key);
      assert xs == [xs[0]] + xs[1..];
      forall j | 0 <= j < |rest| ensures Leq(key(xs[0]), key(rest[j])) {
        assert rest[j] in multiset(rest);
        assert rest[j] == x || rest[j] in xs[1..];
      }
    }
  }

  lemma {:induction false} SortSorts<T>(xs: seq<T>, key: T -> string)
    ensures SortedBy(SortBy(xs, key), key) && multiset(SortBy(xs, key)) == multiset(xs)
  {
    if xs != [] {
      SortSorts(xs[1..], key);
      InsertSorts(xs[0], SortBy(xs[1..], key), key);
      assert xs == [xs[0]] + xs[1..];
    }
  }

  ghost predicate KeysDiffer<T(!new)>(xs: seq<T>, key: T -> string) {
    forall a, b :: a in xs && b in xs && key(a) == key(b) ==> a == b
  }

  lemma SameFirst<T(!new)>(xs: seq<T>, ys: seq<T>, key: T -> string)
    requires SortedBy(xs, key) && SortedBy(ys, key) && multiset(xs) == multiset(ys) && KeysDiffer(xs, key)
    requires xs != [] && ys != []
    ensures xs[0] == ys[0]
  {
    assert xs[0] in multiset(ys) && ys[0] in multiset(xs);
    var i :| 0 <= i < |ys| && ys[i] == xs[0];
    var j :| 0 <= j < |xs| && xs[j] == ys[0];
    LeqReflexive(key(xs[0]));
    LeqReflexive(key(ys[0]));
    LeqAntisymmetric(key(xs[0]), key(ys[0]));
  }

  lemma SameRest<T>(xs: seq<T>, ys: seq<T>)
    requires xs != [] && ys != [] && xs[0] == ys[0] && multiset(xs) == multiset(ys)
    ensures multiset(xs[1..]) == multiset(ys[1..])
  {
    assert xs == [xs[0]] + xs[1..] && ys == [ys[0]] + ys[1..];
    assert multiset(xs[1..]) == multiset(xs) - multiset{xs[0]};
    assert multiset(ys[1..]) == multiset(ys) - multiset{ys[0]};
  }

  /** Sorting has one outcome for each multiset of elements that their keys tell apart. */
  lemma {:induction false} SortedUnique<T(!new)>(xs: seq<T>, ys: seq<T>, key: T -> string)
    requires SortedBy(xs, key) && SortedBy(ys, key) && multiset(xs) == multiset(ys) && KeysDiffer(xs, key)
    ensures xs == ys
  {
    assert |multiset(xs)| == |xs| && |multiset(ys)| == |ys|;
    if xs != [] {
      SameFirst(xs, ys, key);
      SameRest(xs, ys);
      SortedUnique(xs[1..], ys[1..], key);
      assert xs == [xs[0]] + xs[1..] && ys == [ys[0]] + ys[1..];
    }
  }

  lemma {:induction false} LeqReflexive(a: string)
    ensures Leq(a, a)
  {
    if a != "" { LeqReflexive(a[1..]); }
  }

  /** Sorting forgets the order of its input, and nothing else. */
  lemma SortExactly<T(!new)>(xs: seq<T>, ys: seq<T>, key: T -> string)
    requires KeysDiffer(xs, key)
    ensures SortBy(xs, key) == SortBy(ys, key) <==> multiset(xs) == multiset(ys)
  {
    SortSorts(xs, key);
    SortSorts(ys, key);
    if multiset(xs) == multiset(ys) {
      forall a, b | a in SortBy(xs, key) && b in SortBy(xs, key) && key(a) == key(b) ensures a == b {
        assert a in multiset(xs) && b in multiset(xs);
      }
      SortedUnique(SortBy(xs, key), SortBy(ys, key), key);
    }
  }

  function Sort(xs: seq<string>): seq<string> { SortBy(xs, (x: string) => x) }

  // ----- sorted lists without repetition -----

  lemma {:induction false} OnceCounts<T>(xs: seq<T>, x: T)
    requires forall i, j :: 0 <= i < j < |xs| ==> xs[i] != xs[j]
    ensures multiset(xs)[x] == if x in xs then 1 else 0
  {
    if xs != [] {
      OnceCounts(xs[1..], x);
      assert xs == [xs[0]] + xs[1..];
      assert multiset(xs) == multiset{xs[0]} + multiset(xs[1..]);
    }
  }

  lemma SameElements<T>(xs: seq<T>, ys: seq<T>)
    requires forall i, j :: 0 <= i < j < |xs| ==> xs[i] != xs[j]
    requires forall i, j :: 0 <= i < j < |ys| ==> ys[i] != ys[j]
    requires forall x :: x in xs <==> x in ys
    ensures multiset(xs) == multiset(ys)
  {
    forall x ensures multiset(xs)[x] == multiset(ys)[x] {
      OnceCounts(xs, x);
      OnceCounts(ys, x);
    }
  }

  /** `Vec::dedup`. */
  function Dedup(xs: seq<string>): seq<string> {
    if |xs| <= 1 then xs
    else if xs[0] == xs[1] then Dedup(xs[1..])
    else [xs[0]] + Dedup(xs[1..])
  }

  /** A list as a set in order: `sort` and `dedup`, or collecting into a `BTreeSet`. */
  function SortedSet(xs: seq<string>): seq<string> { Dedup(Sort(xs)) }

  ghost predicate StrictlySorted(xs: seq<string>) {
    forall i, j :: 0 <= i < j < |xs| ==> Leq(xs[i], xs[j]) && xs[i] != xs[j]
  }

  lemma {:induction false} DedupSorted(xs: seq<string>)
    requires SortedBy(xs, (x: string) => x)
    ensures StrictlySorted(Dedup(xs))
    ensures forall x :: x in Dedup(xs) <==> x in xs
    ensures xs != [] ==> Dedup(xs) != [] && Dedup(xs)[0] == xs[0]
  {
    if |xs| > 1 {
      DedupSorted(xs[1..]);
      var rest := Dedup(xs[1..]);
      assert xs == [xs[0]] + xs[1..];
      if xs[0] != xs[1] {
        forall j | 0 <= j < |rest| ensures Leq(xs[0], rest[j]) && xs[0] != rest[j] {
          assert rest[j] in xs[1..];
          assert Leq(xs[0], rest[j]) && Leq(xs[0], xs[1]);
          if rest[j] == xs[0] {
            var k :| 1 <= k < |xs| && xs[k] == xs[0];
            if k > 1 { assert Leq(xs[1], xs[k]); }
            LeqAntisymmetric(xs[0], xs[1]);
          }
        }
      }
    }
  }

  lemma {:induction false} StrictlySortedUnique(xs: seq<string>, ys: seq<string>)
    requires StrictlySorted(xs) && StrictlySorted(ys) && forall x :: x in xs <==> x in ys
    ensures xs == ys
  {
    SameElements(xs, ys);
    SortedUnique(xs, ys, (x: string) => x);
  }

  lemma SortedElements(xs: seq<string>)
    ensures SortedBy(Sort(xs), (x: string) => x)
    ensures forall x :: x in Sort(xs) <==> x in xs
  {
    SortSorts(xs, (x: string) => x);
    forall x ensures x in Sort(xs) <==> x in xs {
      assert x in Sort(xs) <==> x in multiset(Sort(xs));
      assert x in xs <==> x in multiset(xs);
    }
  }

  /** The list stands for the set of its elements: order and repetition are forgotten, and
      nothing else. */
  lemma SortedSetExactly(xs: seq<string>, ys: seq<string>)
    ensures SortedSet(xs) == SortedSet(ys) <==> (forall x :: x in xs <==> x in ys)
    ensures StrictlySorted(SortedSet(xs))
    ensures forall x :: x in SortedSet(xs) <==> x in xs
  {
    SortedElements(xs);
    SortedElements(ys);
    DedupSorted(Sort(xs));
    DedupSorted(Sort(ys));
    if forall x :: x in xs <==> x in ys {
      StrictlySortedUnique(SortedSet(xs), SortedSet(ys));
    }
  }

  // ----- whitespace and case -----

  /** The White_Space property of Unicode. */
  predicate IsSpace(c: char) {
    ('\t' <= c <= '\r') || c == ' ' || c == '\U{85}' || c == '\U{A0}' || c == '\U{1680}' || ('\U{2000}' <= c <= '\U{200A}')
    || c == '\U{2028}' || c == '\U{2029}' || c == '\U{202F}' || c == '\U{205F}' || c == '\U{3000}'
  }

  function TrimStart(s: string): string { if s != "" && IsSpace(s[0]) then TrimStart(s[1..]) else s }

  function TrimEnd(s: string): string { if s != "" && IsSpace(s[|s| - 1]) then TrimEnd(s[..|s| - 1]) else s }

  /** `str::trim`. */
  function Trim(s: string): string { TrimEnd(TrimStart(s)) }

  /** The length of the leading run of whitespace, or of anything but whitespace. */
  function RunLength(s: string, space: bool): (n: nat)
    ensures n <= |s|
    ensures forall i :: 0 <= i < n ==> IsSpace(s[i]) == space
    ensures n < |s| ==> IsSpace(s[n]) != space
  {
    if s != "" && IsSpace(s[0]) == space then 1 + RunLength(s[1..], space) else 0
  }

  /** `split_whitespace`. */
  function Words(s: string): (words: seq<string>)
    ensures forall w :: w in words ==> IsWord(w)
    decreases |s|
  {
    var n := RunLength(s, true);
    if n == |s| then []
    else
      var t := s[n..];
      var m := RunLength(t, false);
      [t[..m]] + Words(t[m..])
  }

  predicate IsWord(w: string) { w != "" && forall i :: 0 <= i < |w| ==> !IsSpace(w[i]) }

  function Collapse(s: string): string { Join(Words(s), " ") }

  lemma {:induction false} RunIs(s: string, space: bool, n: nat)
    requires n <= |s| && (forall i :: 0 <= i < n ==> IsSpace(s[i]) == space) && (n < |s| ==> IsSpace(s[n]) != space)
    ensures RunLength(s, space) == n
  {
    if n > 0 { RunIs(s[1..], space, n - 1); }
  }

  lemma WordThenRest(w: string, rest: string)
    requires IsWord(w) && (rest == "" || IsSpace(rest[0]))
    ensures Words(w + rest) == [w] + Words(rest)
  {
    var s := w + rest;
    RunIs(s, true, 0);
    RunIs(s, false, |w|);
    assert s[0..] == s && s[..|w|] == w && s[|w|..] == rest;
  }

  lemma LeadingSpace(s: string)
    ensures Words(" " + s) == Words(s)
  {
    var n := RunLength(s, true);
    var t := " " + s;
    RunIs(t, true, n + 1);
    assert t[n + 1..] == s[n..];
  }

  lemma OneWord(w: string)
    requires IsWord(w)
    ensures Words(w) == [w]
  {
    WordThenRest(w, "");
    assert w + "" == w;
    assert Words("") == [];
  }

  lemma WordThenMore(w: string, rest: string)
    requires IsWord(w)
    ensures Words(w + " " + rest) == [w] + Words(rest)
  {
    assert w + " " + rest == w + (" " + rest);
    WordThenRest(w, " " + rest);
    LeadingSpace(rest);
  }

  /** Words separated by single spaces are read back. */
  lemma {:induction false} WordsOfJoined(words: seq<string>)
    requires forall w :: w in words ==> IsWord(w)
    ensures Words(Join(words, " ")) == words
  {
    if |words| == 1 {
      OneWord(words[0]);
    } else if |words| > 1 {
      WordsOfJoined(words[1..]);
      WordThenMore(words[0], Join(words[1..], " "));
      assert words == [words[0]] + words[1..];
    }
  }

  lemma CollapseIdempotent(s: string)
    ensures Words(Collapse(s)) == Words(s) && Collapse(Collapse(s)) == Collapse(s)
  {
    WordsOfJoined(Words(s));
  }

  function LowerChar(c: char): char { if 'A' <= c <= 'Z' then (c as int + 32) as char else c }

  /** `to_ascii_lowercase`. */
  function Lower(s: string): (r: string)
    ensures |r| == |s| && forall i :: 0 <= i < |s| ==> r[i] == LowerChar(s[i])
  {
    seq(|s|, i requires 0 <= i < |s| => LowerChar(s[i]))
  }

  lemma LowerIdempotent(s: string)
    ensures Lower(Lower(s)) == Lower(s)
  {
  }

  function LowerAll(words: seq<string>): (r: seq<string>)
    ensures |r| == |words| && forall i :: 0 <= i < |words| ==> r[i] == Lower(words[i])
  {
    seq(|words|, i requires 0 <= i < |words| => Lower(words[i]))
  }

  lemma {:induction false} LowerJoin(words: seq<string>)
    ensures Lower(Join(words, " ")) == Join(LowerAll(words), " ")
  {
    if |words| >= 2 {
      LowerJoin(words[1..]);
      assert LowerAll(words)[1..] == LowerAll(words[1..]);
      assert Lower(words[0] + " " + Join(words[1..], " ")) == Lower(words[0]) + " " + Lower(Join(words[1..], " "));
    } else if |words| == 1 {
      assert LowerAll(words) == [Lower(words[0])];
    }
  }

  lemma LowerKeepsWords(words: seq<string>)
    requires forall w :: w in words ==> IsWord(w)
    ensures forall w :: w in LowerAll(words) ==> IsWord(w)
  {
    forall i | 0 <= i < |words| ensures IsWord(LowerAll(words)[i]) {
      assert words[i] in words;
    }
  }

  /** Collapsing and then lowering is idempotent, because lowering keeps the words apart. */
  lemma CollapseLowered(s: string)
    ensures Collapse(Lower(Collapse(s))) == Lower(Collapse(s))
  {
    LowerJoin(Words(s));
    LowerKeepsWords(Words(s));
    WordsOfJoined(LowerAll(Words(s)));
  }
}
