/** CPU lists such as "0-3,8": the count in two spellings, and the indices. */
module CpuList {
  import opened Wrappers
  import opened Strings

  const U32_MAX := 0xFFFF_FFFF

  predicate IsDigit(c: char) { '0' <= c <= '9' }

  predicate AllDigits(s: string) { forall i :: 0 <= i < |s| ==> IsDigit(s[i]) }

  function Digits(s: string): (n: nat)
    requires AllDigits(s)
  {
    if s == "" then 0
    else
      assert IsDigit(s[|s| - 1]);
      Digits(s[..|s| - 1]) * 10 + (s[|s| - 1] - '0') as int
  }

  /** `str::parse::<u32>`: an optional plus sign, then one or more digits, at most 2^32 - 1. */
  function ParseU32(s: string): (r: Option<nat>)
    ensures r.Some? ==> r.value <= U32_MAX
  {
    var digits := if s != "" && s[0] == '+' then s[1..] else s;
    if digits == "" || !AllDigits(digits) then None
    else if Digits(digits) <= U32_MAX then Some(Digits(digits)) else None
  }

  /** One part between commas: nothing, unreadable, or the indices from first to last. */
  datatype Part = Blank | Bad | Span(first: nat, last: nat)

  function ReadPart(part: string): (r: Part)
    ensures r.Span? ==> r.first <= r.last <= U32_MAX
  {
    if part == "" then Blank
    else match SplitOnce(part, '-')
      case Some(ends) =>
        var first, last := ParseU32(Trim(ends.0)), ParseU32(Trim(ends.1));
        if first.None? || last.None? || last.value < first.value then Bad else Span(first.value, last.value)
      case None =>
        var index := ParseU32(part);
        if index.None? then Bad else Span(index.value, index.value)
  }

  function ReadParts(parts: seq<string>): (r: seq<Part>)
    ensures |r| == |parts| && forall i :: 0 <= i < |parts| ==> r[i] == ReadPart(Trim(parts[i]))
  {
    seq(|parts|, i requires 0 <= i < |parts| => ReadPart(Trim(parts[i])))
  }

  function PartsOf(value: string): seq<Part> { ReadParts(Split(value, ',')) }

  // ----- what the two counters and the index list should give -----

  ghost predicate AllGood(parts: seq<Part>) {
    forall p :: p in parts ==> !p.Bad?
  }

  function Width(p: Part): nat
    requires p.Span? ==> p.first <= p.last
  {
    if p.Span? then p.last - p.first + 1 else 0
  }

  predicate Ordered(parts: seq<Part>) {
    forall i :: 0 <= i < |parts| && parts[i].Span? ==> parts[i].first <= parts[i].last
  }

  function TotalWidth(parts: seq<Part>): nat
    requires Ordered(parts)
  {
    if parts == [] then 0 else TotalWidth(parts[..|parts| - 1]) + Width(parts[|parts| - 1])
  }

  /** The sum of the widths of the ranges, unless a part is unreadable or reversed, there is
      no range at all, or the sum does not fit. */
  ghost predicate IsCount(parts: seq<Part>, r: Option<nat>)
    requires Ordered(parts)
  {
    r == if AllGood(parts) && 0 < TotalWidth(parts) <= U32_MAX then Some(TotalWidth(parts)) else None
  }

  lemma {:induction false} TotalGrows(parts: seq<Part>, n: nat)
    requires Ordered(parts) && n <= |parts|
    ensures TotalWidth(parts[..n]) <= TotalWidth(parts)
  {
    if n < |parts| {
      TotalGrows(parts[..|parts| - 1], n);
      assert parts[..|parts| - 1][..n] == parts[..n];
    } else {
      assert parts[..n] == parts;
    }
  }

  lemma TotalMore(parts: seq<Part>, i: nat)
    requires Ordered(parts) && i < |parts|
    ensures TotalWidth(parts[..i + 1]) == TotalWidth(parts[..i]) + Width(parts[i]) <= TotalWidth(parts)
  {
    assert parts[..i + 1][..i] == parts[..i];
    TotalGrows(parts, i + 1);
  }

  lemma GoodMore(parts: seq<Part>, i: nat)
    requires i < |parts|
    ensures AllGood(parts[..i + 1]) <==> AllGood(parts[..i]) && !parts[i].Bad?
    ensures parts[i].Bad? ==> !AllGood(parts)
  {
    assert parts[..i + 1] == parts[..i] + [parts[i]] && parts[i] in parts;
  }

  /** The loop of both counters, over the parts between the commas. */
  method CountParts(parts: seq<Part>) returns (r: Option<nat>)
    requires Ordered(parts)
    ensures IsCount(parts, r)
  {
    var count := 0;
    var i := 0;
    while i < |parts|
      invariant 0 <= i <= |parts|
      invariant AllGood(parts[..i]) && count == TotalWidth(parts[..i]) <= U32_MAX
    {
      TotalMore(parts, i);
      GoodMore(parts, i);
      match parts[i] {
        case Blank =>
        case Bad => return None;
        case Span(start, end) =>
          if end - start + 1 > U32_MAX || count + (end - start + 1) > U32_MAX {
            return None;
          }
          count := count + (end - start + 1);
      }
      i := i + 1;
    }
    assert parts[..i] == parts;
    r := if count > 0 then Some(count) else None;
  }

  /** `parse_cpu_list_count`, which trims the whole value first. */
  method ParseCpuListCount(value: string) returns (r: Option<nat>)
    ensures IsCount(PartsOf(value), r)
  {
    r := CountParts(PartsOf(Trim(value)));
    TrimmedPartsAgree(value);
  }

  /** `parse_shared_cpu_count`, which does not. */
  method ParseSharedCpuCount(value: string) returns (r: Option<nat>)
    ensures IsCount(PartsOf(value), r)
  {
    r := CountParts(PartsOf(value));
  }

  // ----- the two counters agree -----

  lemma SplitLeadingSpace(s: string)
    requires s != "" && IsSpace(s[0])
    ensures Split(s, ',') == [[s[0]] + Split(s[1..], ',')[0]] + Split(s[1..], ',')[1..]
  {
  }

  lemma SplitOneSpace(c: char)
    requires IsSpace(c)
    ensures Split([c], ',') == [[c]]
  {
    assert [c][1..] == "" && Split("", ',') == [""];
    assert [c] + "" == [c];
  }

  lemma SplitFirst(s: string)
    requires s != ""
    ensures var rest := Split(s[1..], ',');
      Split(s, ',') == if s[0] == ',' then [""] + rest else [[s[0]] + rest[0]] + rest[1..]
  {
  }

  lemma {:induction false} SplitTrailingSpace(s: string, c: char)
    requires IsSpace(c)
    ensures var parts := Split(s, ','); Split(s + [c], ',') == parts[..|parts| - 1] + [parts[|parts| - 1] + [c]]
  {
    if s == "" {
      SplitOneSpace(c);
      assert "" + [c] == [c];
    } else {
      assert (s + [c])[1..] == s[1..] + [c] && (s + [c])[0] == s[0];
      SplitTrailingSpace(s[1..], c);
      SplitFirst(s);
      SplitFirst(s + [c]);
      var rest := Split(s[1..], ',');
      if s[0] != ',' && |rest| == 1 {
        assert [s[0]] + (rest[0] + [c]) == [s[0]] + rest[0] + [c];
      }
    }
  }

  lemma {:induction false} TrimStartSpace(s: string, c: char)
    requires IsSpace(c)
    ensures TrimStart(s + [c]) == if TrimStart(s) == "" then "" else TrimStart(s) + [c]
  {
    if s == "" {
      assert "" + [c] == [c] && [c][1..] == "";
    } else {
      assert (s + [c])[0] == s[0] && (s + [c])[1..] == s[1..] + [c];
      if IsSpace(s[0]) { TrimStartSpace(s[1..], c); }
    }
  }

  lemma TrimSpaces(s: string, c: char)
    requires IsSpace(c)
    ensures Trim([c] + s) == Trim(s) && Trim(s + [c]) == Trim(s)
  {
    assert ([c] + s)[1..] == s;
    TrimStartSpace(s, c);
    var t := TrimStart(s);
    assert (t + [c])[..|t|] == t;
  }

  lemma SameReads(a: seq<string>, b: seq<string>)
    requires |a| == |b| && forall i :: 0 <= i < |a| ==> Trim(a[i]) == Trim(b[i])
    ensures ReadParts(a) == ReadParts(b)
  {
  }

  lemma DropLeading(s: string)
    requires s != "" && IsSpace(s[0])
    ensures PartsOf(s[1..]) == PartsOf(s)
  {
    SplitLeadingSpace(s);
    var parts := Split(s[1..], ',');
    TrimSpaces(parts[0], s[0]);
    SameReads(parts, [[s[0]] + parts[0]] + parts[1..]);
  }

  lemma DropTrailing(s: string)
    requires s != "" && IsSpace(s[|s| - 1])
    ensures PartsOf(s[..|s| - 1]) == PartsOf(s)
  {
    var t, c := s[..|s| - 1], s[|s| - 1];
    assert s == t + [c];
    SplitTrailingSpace(t, c);
    var parts := Split(t, ',');
    TrimSpaces(parts[|parts| - 1], c);
    SameReads(parts, parts[..|parts| - 1] + [parts[|parts| - 1] + [c]]);
  }

  lemma {:induction false} TrimEndAgrees(s: string)
    ensures PartsOf(TrimEnd(s)) == PartsOf(s)
  {
    if s != "" && IsSpace(s[|s| - 1]) {
      TrimEndAgrees(s[..|s| - 1]);
      DropTrailing(s);
    }
  }

  lemma {:induction false} TrimStartAgrees(s: string)
    ensures PartsOf(TrimStart(s)) == PartsOf(s)
  {
    if s != "" && IsSpace(s[0]) {
      TrimStartAgrees(s[1..]);
      DropLeading(s);
    }
  }

  /** Trimming the whole value changes no part, so `parse_cpu_list_count` and
      `parse_shared_cpu_count` agree on every input. */
  lemma TrimmedPartsAgree(value: string)
    ensures PartsOf(Trim(value)) == PartsOf(value)
  {
    TrimStartAgrees(value);
    TrimEndAgrees(TrimStart(value));
  }

  // ----- the indices -----

  ghost predicate Covers(parts: seq<Part>, x: nat) {
    exists i :: 0 <= i < |parts| && parts[i].Span? && parts[i].first <= x <= parts[i].last
  }

  ghost predicate Distinct(xs: seq<nat>) {
    forall i, j :: 0 <= i < j < |xs| ==> xs[i] != xs[j]
  }

  /** The union of the ranges, each index once, unless a part is unreadable or reversed or
      there is no range. */
  ghost predicate IsIndices(parts: seq<Part>, r: Option<seq<nat>>) {
    match r
    case Some(xs) => AllGood(parts) && xs != [] && Distinct(xs) && forall x :: x in xs <==> Covers(parts, x)
    case None => !AllGood(parts) || forall x :: !Covers(parts, x)
  }

  lemma CoversMore(parts: seq<Part>, n: nat, x: nat)
    requires n < |parts|
    ensures Covers(parts[..n + 1], x) <==> Covers(parts[..n], x) || (parts[n].Span? && parts[n].first <= x <= parts[n].last)
  {
    if parts[n].Span? && parts[n].first <= x <= parts[n].last { assert parts[..n + 1][n] == parts[n]; }
    if Covers(parts[..n], x) {
      var i :| 0 <= i < n && parts[i].Span? && parts[i].first <= x <= parts[i].last;
      assert parts[..n + 1][i] == parts[i];
    }
  }

  /** The inner loop: the indices of one range that are not there yet. */
  method AddSpan(xs: seq<nat>, first: nat, last: nat) returns (r: seq<nat>)
    requires Distinct(xs) && first <= last
    ensures Distinct(r) && forall x :: x in r <==> x in xs || first <= x <= last
  {
    r := xs;
    for index := first to last + 1
      invariant Distinct(r) && forall x :: x in r <==> x in xs || first <= x < index
    {
      if index !in r {
        r := r + [index];
      }
    }
  }

  ghost predicate Collects(xs: seq<nat>, parts: seq<Part>) {
    Distinct(xs) && forall x :: x in xs <==> Covers(parts, x)
  }

  lemma CollectsMore(xs: seq<nat>, ys: seq<nat>, parts: seq<Part>, i: nat)
    requires i < |parts| && Collects(xs, parts[..i]) && Distinct(ys)
    requires forall x :: x in ys <==> x in xs || (parts[i].Span? && parts[i].first <= x <= parts[i].last)
    ensures Collects(ys, parts[..i + 1])
  {
    forall x: nat ensures x in ys <==> Covers(parts[..i + 1], x) { CoversMore(parts, i, x); }
  }

  /** The loop over the parts between the commas. */
  method CollectParts(parts: seq<Part>) returns (r: Option<seq<nat>>)
    requires Ordered(parts)
    ensures IsIndices(parts, r)
  {
    var xs: seq<nat> := [];
    var i := 0;
    while i < |parts|
      invariant 0 <= i <= |parts|
      invariant AllGood(parts[..i]) && Collects(xs, parts[..i])
    {
      GoodMore(parts, i);
      ghost var before := xs;
      match parts[i] {
        case Blank =>
        case Bad => return None;
        case Span(start, end) => xs := AddSpan(xs, start, end);
      }
      CollectsMore(before, xs, parts, i);
      i := i + 1;
    }
    assert parts[..i] == parts;
    r := if xs == [] then None else Some(xs);
  }

  /** `parse_cpu_list_indices`. */
  method ParseCpuListIndices(value: string) returns (r: Option<seq<nat>>)
    ensures IsIndices(PartsOf(value), r)
  {
    r := CollectParts(PartsOf(Trim(value)));
    TrimmedPartsAgree(value);
  }

  // ----- indices against count -----

  ghost function SpanSet(first: nat, last: nat): (s: set<nat>)
    requires first <= last
    ensures |s| == last - first + 1 && forall x :: x in s <==> first <= x <= last
    decreases last - first
  {
    if first == last then {first} else SpanSet(first, last - 1) + {last}
  }

  ghost function Union(parts: seq<Part>): (s: set<nat>)
    requires Ordered(parts)
    ensures forall x :: x in s <==> Covers(parts, x)
  {
    if parts == [] then {}
    else
      var n := |parts| - 1;
      UnionMore(parts);
      Union(parts[..n]) + (if parts[n].Span? then SpanSet(parts[n].first, parts[n].last) else {})
  }

  lemma UnionMore(parts: seq<Part>)
    requires parts != []
    ensures var n := |parts| - 1; forall x: nat :: Covers(parts, x) <==>
      Covers(parts[..n], x) || (parts[n].Span? && parts[n].first <= x <= parts[n].last)
  {
    var n := |parts| - 1;
    assert parts[..n + 1] == parts;
    forall x: nat ensures Covers(parts, x) <==> Covers(parts[..n], x) || (parts[n].Span? && parts[n].first <= x <= parts[n].last) {
      CoversMore(parts, n, x);
    }
  }

  ghost predicate Disjoint(parts: seq<Part>) {
    forall i, j :: 0 <= i < j < |parts| ==> !Meet(parts[i], parts[j])
  }

  lemma UnionSizes(a: set<nat>, b: set<nat>)
    ensures |a + b| <= |a| + |b|
    ensures |a + b| == |a| + |b| <==> forall x :: x in a ==> x !in b
  {
    assert |a + b| == |a| + |b| - |a * b|;
    if forall x :: x in a ==> x !in b {
      assert a * b == {};
    }
    forall x | x in a && x in b ensures |a * b| > 0 { assert x in a * b; }
  }

  predicate Meet(p: Part, q: Part) {
    p.Span? && q.Span? && p.first <= q.last && q.first <= p.last
  }

  lemma MeetingSpans(parts: seq<Part>, n: nat)
    requires Ordered(parts) && n < |parts| && parts[n].Span?
    ensures (forall x :: x in Union(parts[..n]) ==> x !in SpanSet(parts[n].first, parts[n].last))
       <==> forall i :: 0 <= i < n ==> !Meet(parts[i], parts[n])
  {
    var span := SpanSet(parts[n].first, parts[n].last);
    forall i | 0 <= i < n && Meet(parts[i], parts[n]) ensures exists x :: x in Union(parts[..n]) && x in span {
      var x := if parts[i].first <= parts[n].first then parts[n].first else parts[i].first;
      assert parts[..n][i] == parts[i];
      assert Covers(parts[..n], x) && x in span;
    }
    forall x | x in Union(parts[..n]) && x in span ensures exists i :: 0 <= i < n && Meet(parts[i], parts[n]) {
      var i :| 0 <= i < n && parts[..n][i].Span? && parts[..n][i].first <= x <= parts[..n][i].last;
      assert parts[..n][i] == parts[i] && Meet(parts[i], parts[n]);
    }
  }

  lemma DisjointMore(parts: seq<Part>)
    requires parts != []
    ensures var n := |parts| - 1; Disjoint(parts) <==> Disjoint(parts[..n]) && forall i :: 0 <= i < n ==> !Meet(parts[i], parts[n])
  {
  }

  /** The union is at most as large as the sum of the widths, and as large exactly when the
      ranges do not meet. */
  lemma {:induction false} UnionAgainstTotal(parts: seq<Part>)
    requires Ordered(parts)
    ensures |Union(parts)| <= TotalWidth(parts)
    ensures |Union(parts)| == TotalWidth(parts) <==> Disjoint(parts)
  {
    if parts != [] {
      var n := |parts| - 1;
      UnionAgainstTotal(parts[..n]);
      DisjointMore(parts);
      if parts[n].Span? {
        UnionSizes(Union(parts[..n]), SpanSet(parts[n].first, parts[n].last));
        MeetingSpans(parts, n);
      }
    }
  }

  ghost function Elements(xs: seq<nat>): (s: set<nat>)
    requires Distinct(xs)
    ensures |s| == |xs| && forall x :: x in s <==> x in xs
  {
    if xs == [] then {}
    else
      var n := |xs| - 1;
      assert xs == xs[..n] + [xs[n]] && xs[n] !in xs[..n];
      Elements(xs[..n]) + {xs[n]}
  }

  lemma CountAgainstParts(parts: seq<Part>, count: Option<nat>, indices: Option<seq<nat>>)
    requires Ordered(parts) && IsCount(parts, count) && IsIndices(parts, indices) && count.Some?
    ensures indices.Some? && |indices.value| <= count.value
    ensures |indices.value| == count.value <==> Disjoint(parts)
  {
    UnionAgainstTotal(parts);
    SomeIndex(parts);
    assert Elements(indices.value) == Union(parts);
  }

  /** When the count of a value succeeds, so do the indices; there are at most as many indices
      as the count says, and equally many exactly when the ranges are disjoint. */
  lemma CountAgainstIndices(value: string, count: Option<nat>, indices: Option<seq<nat>>)
    requires IsCount(PartsOf(value), count) && IsIndices(PartsOf(value), indices) && count.Some?
    ensures indices.Some? && |indices.value| <= count.value
    ensures |indices.value| == count.value <==> Disjoint(PartsOf(value))
  {
    CountAgainstParts(PartsOf(value), count, indices);
  }

  lemma {:induction false} SomeIndex(parts: seq<Part>)
    requires Ordered(parts) && TotalWidth(parts) > 0
    ensures exists x: nat :: Covers(parts, x)
  {
    var n := |parts| - 1;
    if parts[n].Span? {
      assert Covers(parts, parts[n].first);
    } else {
      SomeIndex(parts[..n]);
      var x: nat :| Covers(parts[..n], x);
      var i :| 0 <= i < n && parts[..n][i].Span? && parts[..n][i].first <= x <= parts[..n][i].last;
      assert parts[i] == parts[..n][i];
      assert Covers(parts, x);
    }
  }
}
