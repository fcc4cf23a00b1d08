/** What normalizing a value keeps of it, said of its words and characters. */
module Spelling {
  import opened Wrappers
  import opened Strings
  import Key
  import Canonical

  // ----- words -----

  /** The leading word of a text that starts with one. */
  lemma LeadingWord(s: string) returns (w: string, rest: string)
    requires s != "" && !IsSpace(s[0])
    ensures s == w + rest && IsWord(w) && (rest == "" || IsSpace(rest[0]))
  {
    var n := RunLength(s, false);
    w, rest := s[..n], s[n..];
  }

  /** Whitespace separates words and is part of none: with `OneWord` and `SpaceFirst` this is
      all there is to know about `split_whitespace`. */
  lemma {:induction false} SpaceSeparates(s: string, u: string)
    requires u == "" || IsSpace(u[0])
    ensures Words(s + u) == Words(s) + Words(u)
    decreases |s|
  {
    if s == "" {
      assert s + u == u;
    } else if IsSpace(s[0]) {
      var rest := s[1..];
      HeadAndTail(s);
      SpaceSeparates(rest, u);
      SpaceGoesOn(s[0], rest, rest + u, Words(u));
      Concat([s[0]], rest, u);
    } else {
      var w, rest := LeadingWord(s);
      SpaceSeparates(rest, u);
      WordGoesOn(w, rest, rest + u, Words(u));
      Concat(w, rest, u);
    }
  }

  lemma SpaceGoesOn(c: char, rest: string, both: string, tail: seq<string>)
    requires IsSpace(c) && Words(both) == Words(rest) + tail
    ensures Words([c] + both) == Words([c] + rest) + tail
  {
    SpaceFirst(c, rest);
    SpaceFirst(c, both);
  }

  lemma WordGoesOn(w: string, rest: string, both: string, tail: seq<string>)
    requires IsWord(w) && (rest == "" || IsSpace(rest[0])) && (both == "" || IsSpace(both[0])) && Words(both) == Words(rest) + tail
    ensures Words(w + both) == Words(w + rest) + tail
  {
    WordThenRest(w, rest);
    WordThenRest(w, both);
    Concat([w], Words(rest), tail);
  }

  lemma HeadAndTail(s: string)
    requires s != ""
    ensures [s[0]] + s[1..] == s
  {
  }

  lemma Concat<T>(a: seq<T>, b: seq<T>, c: seq<T>)
    ensures a + (b + c) == a + b + c
  {
  }

  lemma SpaceFirst(c: char, t: string)
    requires IsSpace(c)
    ensures Words([c] + t) == Words(t)
  {
    var n := RunLength(t, true);
    var s := [c] + t;
    RunIs(s, true, n + 1);
    assert s[n + 1..] == t[n..];
  }

  // ----- trimming -----

  predicate Blank(s: string) { forall i :: 0 <= i < |s| ==> IsSpace(s[i]) }

  predicate Tight(s: string) { s != "" ==> !IsSpace(s[0]) && !IsSpace(s[|s| - 1]) }

  lemma {:induction false} TrimStartExactly(s: string) returns (before: string)
    ensures Blank(before) && s == before + TrimStart(s) && (TrimStart(s) != "" ==> !IsSpace(TrimStart(s)[0]))
  {
    if s != "" && IsSpace(s[0]) {
      var rest := TrimStartExactly(s[1..]);
      before := [s[0]] + rest;
    } else {
      before := "";
    }
  }

  lemma {:induction false} TrimEndExactly(s: string) returns (after: string)
    ensures Blank(after) && s == TrimEnd(s) + after && (TrimEnd(s) != "" ==> !IsSpace(TrimEnd(s)[|TrimEnd(s)| - 1]))
  {
    if s != "" && IsSpace(s[|s| - 1]) {
      var rest := TrimEndExactly(s[..|s| - 1]);
      after := rest + [s[|s| - 1]];
    } else {
      after := "";
    }
  }

  /** `trim` takes off exactly the whitespace at both ends. */
  lemma TrimExactly(s: string) returns (before: string, after: string)
    ensures Blank(before) && Blank(after) && Tight(Trim(s)) && s == before + Trim(s) + after
  {
    before := TrimStartExactly(s);
    after := TrimEndExactly(TrimStart(s));
    if Trim(s) != "" { assert TrimStart(s)[0] == Trim(s)[0]; }
  }

  // ----- single spaces -----

  /** The only whitespace is single spaces between words. */
  predicate SingleSpaced(x: string) {
    forall i :: 0 <= i < |x| && IsSpace(x[i]) ==> x[i] == ' ' && 0 < i < |x| - 1 && !IsSpace(x[i + 1])
  }

  lemma {:induction false} JoinedIsSingleSpaced(words: seq<string>)
    requires forall w :: w in words ==> IsWord(w)
    ensures SingleSpaced(Join(words, " "))
    ensures words != [] ==> Join(words, " ") != "" && !IsSpace(Join(words, " ")[0])
  {
    if |words| == 1 {
      assert IsWord(words[0]);
    } else if |words| > 1 {
      JoinedIsSingleSpaced(words[1..]);
      assert IsWord(words[0]);
      var rest := Join(words[1..], " ");
      var x := Join(words, " ");
      assert x == words[0] + " " + rest;
      forall i | 0 <= i < |x| && IsSpace(x[i]) ensures x[i] == ' ' && 0 < i < |x| - 1 && !IsSpace(x[i + 1]) {
        if i > |words[0]| { assert x[i] == rest[i - |words[0]| - 1]; }
      }
    }
  }

  lemma {:induction false} SingleSpacedStays(x: string)
    requires SingleSpaced(x)
    ensures Collapse(x) == x
    decreases |x|
  {
    if x == "" {
      assert Words("") == [];
    } else {
      assert !IsSpace(x[0]);
      var w, rest := LeadingWord(x);
      if rest == "" {
        assert x == w;
        OneWord(w);
      } else {
        assert rest[0] == x[|w|] == ' ';
        var more := rest[1..];
        assert rest == " " + more && x == w + " " + more;
        MoreIsSingleSpaced(w, more);
        SingleSpacedStays(more);
        WordThenMore(w, more);
        assert Words(more) != [];
      }
    }
  }

  lemma MoreIsSingleSpaced(w: string, more: string)
    requires SingleSpaced(w + " " + more)
    ensures SingleSpaced(more) && more != ""
  {
    var x := w + " " + more;
    assert x[|w|] == ' ';
    forall i | 0 <= i < |more| && IsSpace(more[i]) ensures more[i] == ' ' && 0 < i < |more| - 1 && !IsSpace(more[i + 1]) {
      assert x[|w| + 1 + i] == more[i];
      if i + 1 < |more| { assert x[|w| + 2 + i] == more[i + 1]; }
    }
  }

  // ----- case -----

  /** d is c, with an ASCII capital replaced by its small letter. */
  predicate IsFolded(c: char, d: char) {
    if 'A' <= c <= 'Z' then d as int - 'a' as int == c as int - 'A' as int else d == c
  }

  /** The same character, or the two cases of one ASCII letter. */
  predicate SameLetter(c: char, d: char) { c == d || IsFolded(c, d) || IsFolded(d, c) }

  predicate FoldedWord(w: string, x: string) { |x| == |w| && forall j :: 0 <= j < |w| ==> IsFolded(w[j], x[j]) }

  predicate SameWord(w: string, x: string) { |x| == |w| && forall j :: 0 <= j < |w| ==> SameLetter(w[j], x[j]) }

  predicate FoldedWords(words: seq<string>, folded: seq<string>) {
    |folded| == |words| && forall i :: 0 <= i < |words| ==> FoldedWord(words[i], folded[i])
  }

  /** The same words up to ASCII case, position by position. */
  predicate SameSpelling(words: seq<string>, words': seq<string>) {
    |words'| == |words| && forall i :: 0 <= i < |words| ==> SameWord(words[i], words'[i])
  }

  lemma LowerIsFolded(c: char, d: char)
    ensures IsFolded(c, LowerChar(c))
    ensures LowerChar(c) == LowerChar(d) <==> SameLetter(c, d)
  {
  }

  lemma LowerAllIsFolded(words: seq<string>)
    ensures FoldedWords(words, LowerAll(words))
  {
  }

  lemma LowerWordExactly(w: string, x: string)
    ensures Lower(w) == Lower(x) <==> SameWord(w, x)
  {
    if Lower(w) == Lower(x) {
      forall j | 0 <= j < |w| ensures SameLetter(w[j], x[j]) {
        assert Lower(w)[j] == Lower(x)[j];
        LowerIsFolded(w[j], x[j]);
      }
    }
  }

  lemma LowerAllExactly(words: seq<string>, words': seq<string>)
    ensures LowerAll(words) == LowerAll(words') <==> SameSpelling(words, words')
  {
    if LowerAll(words) == LowerAll(words') {
      forall i | 0 <= i < |words| ensures SameWord(words[i], words'[i]) {
        assert LowerAll(words)[i] == LowerAll(words')[i];
        LowerWordExactly(words[i], words'[i]);
      }
    }
    if SameSpelling(words, words') {
      forall i | 0 <= i < |words| ensures LowerAll(words)[i] == LowerAll(words')[i] {
        LowerWordExactly(words[i], words'[i]);
      }
    }
  }

  lemma LowerCollapse(value: string)
    ensures Lower(Collapse(value)) == Join(LowerAll(Words(value)), " ")
    ensures Words(Lower(Collapse(value))) == LowerAll(Words(value))
    ensures SingleSpaced(Lower(Collapse(value)))
  {
    LowerJoin(Words(value));
    LowerKeepsWords(Words(value));
    WordsOfJoined(LowerAll(Words(value)));
    JoinedIsSingleSpaced(LowerAll(Words(value)));
  }

  // ----- placeholders -----

  predicate IsNormal(p: string) { SingleSpaced(p) && Lower(p) == p }

  lemma NoneIsNormal(p: string)
    requires p == "none"
    ensures IsNormal(p)
  {
  }

  lemma NotAvailableIsNormal(p: string)
    requires p == "n/a"
    ensures IsNormal(p)
  {
  }

  lemma UnknownIsNormal(p: string)
    requires p == "unknown"
    ensures IsNormal(p)
  {
  }

  lemma NotSpecifiedIsSpaced(p: string)
    requires p == "not specified"
    ensures SingleSpaced(p)
  {
  }

  lemma NotSpecifiedIsLow(p: string)
    requires p == "not specified"
    ensures Lower(p) == p
  {
  }

  lemma NoAssetTagIsSpaced(p: string)
    requires p == "no asset tag"
    ensures SingleSpaced(p)
  {
  }

  lemma NoAssetTagIsLow(p: string)
    requires p == "no asset tag"
    ensures Lower(p) == p
  {
  }

  lemma DefaultStringIsSpaced(p: string)
    requires p == "default string"
    ensures SingleSpaced(p)
  {
  }

  lemma DefaultStringIsLow(p: string)
    requires p == "default string"
    ensures Lower(p) == p
  {
  }

  lemma ToBeFilledIsSpaced(p: string)
    requires p == "to be filled by o.e.m."
    ensures SingleSpaced(p)
  {
  }

  lemma ToBeFilledIsLow(p: string)
    requires p == "to be filled by o.e.m."
    ensures Lower(p) == p
  {
  }

  lemma SystemSerialIsSpaced(p: string)
    requires p == "system serial number"
    ensures SingleSpaced(p)
  {
  }

  lemma SystemSerialIsLow(p: string)
    requires p == "system serial number"
    ensures Lower(p) == p
  {
  }

  lemma PlaceholdersAreNormal(p: string)
    requires p in Key.PLACEHOLDERS
    ensures IsNormal(p)
  {
    if p == "none" {
      NoneIsNormal(p);
    } else if p == "n/a" {
      NotAvailableIsNormal(p);
    } else if p == "unknown" {
      UnknownIsNormal(p);
    } else if p == "not specified" {
      NotSpecifiedIsSpaced(p);
      NotSpecifiedIsLow(p);
    } else if p == "no asset tag" {
      NoAssetTagIsSpaced(p);
      NoAssetTagIsLow(p);
    } else if p == "default string" {
      DefaultStringIsSpaced(p);
      DefaultStringIsLow(p);
    } else if p == "to be filled by o.e.m." {
      ToBeFilledIsSpaced(p);
      ToBeFilledIsLow(p);
    } else {
      SystemSerialIsSpaced(p);
      SystemSerialIsLow(p);
    }
  }

  /** No word at all, or the spelling of a placeholder. */
  ghost predicate IsNothing(value: string) {
    Words(value) == [] || exists p :: p in Key.PLACEHOLDERS && SameSpelling(Words(value), Words(p))
  }

  lemma PlaceholderExactly(value: string)
    ensures Lower(Collapse(value)) in Key.PLACEHOLDERS <==>
      exists p :: p in Key.PLACEHOLDERS && SameSpelling(Words(value), Words(p))
    ensures Collapse(value) == "" <==> Words(value) == []
  {
    LowerCollapse(value);
    var q := Lower(Collapse(value));
    if q in Key.PLACEHOLDERS {
      LowerAllIsFolded(Words(value));
      assert SameSpelling(Words(value), Words(q));
    }
    forall p | p in Key.PLACEHOLDERS && SameSpelling(Words(value), Words(p)) ensures q == p {
      PlaceholdersAreNormal(p);
      SingleSpacedStays(p);
      LowerAllExactly(Words(value), Words(p));
      LowerCollapse(p);
    }
    if Words(value) != [] { JoinedIsSingleSpaced(Words(value)); }
  }

  // ----- the normalized values -----

  /** `normalize` of the snapshot records gives nothing exactly for no words and for
      placeholders, else the words of the value with ASCII capitals folded, single-spaced. */
  lemma CanonicalValue(name: string, value: string)
    ensures Canonical.NormalizeField(name, value) == Canonical.Normalize(value)
    ensures Canonical.Normalize(value).None? <==> IsNothing(value)
    ensures Canonical.Normalize(value).Some? ==>
      FoldedWords(Words(value), Words(Canonical.Normalize(value).value)) && SingleSpaced(Canonical.Normalize(value).value)
  {
    PlaceholderExactly(value);
    LowerCollapse(value);
    LowerAllIsFolded(Words(value));
  }

  /** And two values that give something give the same if and only if they are spelled alike
      up to ASCII case, so different values stay different. */
  lemma CanonicalExactly(value: string, other: string)
    requires !IsNothing(value) && !IsNothing(other)
    ensures Canonical.Normalize(value) == Canonical.Normalize(other) <==> SameSpelling(Words(value), Words(other))
  {
    PlaceholderExactly(value);
    PlaceholderExactly(other);
    LowerCollapse(value);
    LowerCollapse(other);
    LowerAllExactly(Words(value), Words(other));
  }

  /** `normalize_value` of the bind id: the same, with the case kept. */
  lemma BindValue(name: string, value: string)
    ensures Key.NormalizeField(name, value) == if name == "mac" then Key.NormalizeMac(value) else Key.NormalizeValue(value)
    ensures Key.NormalizeValue(value) == if IsNothing(value) then None else Some(Collapse(value))
    ensures Key.NormalizeValue(value).Some? ==>
      Words(Key.NormalizeValue(value).value) == Words(value) && SingleSpaced(Key.NormalizeValue(value).value)
  {
    PlaceholderExactly(value);
    BindNothing(value);
    CollapseIdempotent(value);
    JoinedIsSingleSpaced(Words(value));
  }

  lemma BindNothing(value: string)
    ensures Key.NormalizeValue(value)
         == if Collapse(value) == "" || Lower(Collapse(value)) in Key.PLACEHOLDERS then None else Some(Collapse(value))
  {
    CollapseIdempotent(value);
  }

  lemma BindExactly(value: string, other: string)
    requires !IsNothing(value) && !IsNothing(other)
    ensures Key.NormalizeValue(value) == Key.NormalizeValue(other) <==> Words(value) == Words(other)
  {
    PlaceholderExactly(value);
    PlaceholderExactly(other);
    CollapseIdempotent(value);
    CollapseIdempotent(other);
  }

  // ----- splitting -----

  /** A text without the separator is one part. */
  lemma {:induction false} SplitNone(s: string, c: char)
    requires c !in s
    ensures Split(s, c) == [s]
  {
    if s != "" {
      SplitNone(s[1..], c);
      HeadAndTail(s);
    }
  }

  /** And the text before the first separator is the first part; this is all of `str::split`. */
  lemma {:induction false} SplitFirst(s: string, c: char, n: nat)
    requires n < |s| && s[n] == c && c !in s[..n]
    ensures Split(s, c) == [s[..n]] + Split(s[n + 1..], c)
  {
    if n > 0 {
      assert s[0] == s[..n][0];
      assert s[1..][..n - 1] == s[..n][1..] && s[1..][n..] == s[n + 1..];
      SplitFirst(s[1..], c, n - 1);
      assert [s[0]] + s[1..][..n - 1] == s[..n];
    }
  }

  lemma {:induction false} FirstAt(s: string, c: char) returns (n: nat)
    requires c in s
    ensures n < |s| && s[n] == c && c !in s[..n]
  {
    if s[0] == c {
      n := 0;
    } else {
      var rest := s[1..];
      assert c in rest;
      n := FirstAt(rest, c);
      assert s[..n + 1 + 0] == [s[0]] + rest[..n];
      n := n + 1;
    }
  }

  // ----- MAC addresses -----

  predicate IsHexDigit(c: char) { '0' <= c <= '9' || 'a' <= c <= 'f' || 'A' <= c <= 'F' }

  /** Pairs of hexadecimal digits between colons. */
  predicate HasShape(w: string, pairs: nat) {
    |w| + 1 == 3 * pairs && forall i :: 0 <= i < |w| ==> if i % 3 == 2 then w[i] == ':' else IsHexDigit(w[i])
  }

  predicate IsPairs(parts: seq<string>, pairs: nat) {
    |parts| == pairs && forall i :: 0 <= i < pairs ==> Key.IsHexPair(parts[i])
  }

  /** Splitting at the colons gives so many pairs exactly for texts of this shape. */
  lemma {:induction false} PairsExactly(w: string, pairs: nat)
    requires pairs > 0
    ensures IsPairs(Split(w, ':'), pairs) <==> HasShape(w, pairs)
  {
    if ':' !in w {
      SplitNone(w, ':');
      NoColon(w, pairs);
    } else {
      var n := FirstAt(w, ':');
      SplitFirst(w, ':', n);
      var rest := w[n + 1..];
      if pairs == 1 {
        assert |Split(w, ':')| >= 2;
        assert w[n] == ':';
      } else {
        PairsExactly(rest, pairs - 1);
        FirstPair(w, n, pairs);
        PartsAfterFirst(w[..n], Split(rest, ':'), pairs);
      }
    }
  }

  lemma NoColon(w: string, pairs: nat)
    requires ':' !in w && pairs > 0
    ensures IsPairs([w], pairs) <==> HasShape(w, pairs)
  {
    if |w| > 2 { NotBefore(w, |w|, 2); assert w[..|w|] == w; }
    if IsPairs([w], pairs) { assert Key.IsHexPair([w][0]); }
  }

  lemma PartsAfterFirst(first: string, rest: seq<string>, pairs: nat)
    requires pairs > 1
    ensures IsPairs([first] + rest, pairs) <==> Key.IsHexPair(first) && IsPairs(rest, pairs - 1)
  {
    var all := [first] + rest;
    assert all[0] == first && all[1..] == rest;
    if IsPairs(all, pairs) {
      forall i | 0 <= i < pairs - 1 ensures Key.IsHexPair(rest[i]) {
        assert rest[i] == all[i + 1];
      }
    }
  }

  lemma NotBefore(w: string, n: nat, i: nat)
    requires n <= |w| && i < |w| && ':' !in w[..n]
    ensures i < n ==> w[i] != ':'
  {
    if i < n { assert w[..n][i] == w[i]; }
  }

  lemma FirstPair(w: string, n: nat, pairs: nat)
    requires n < |w| && w[n] == ':' && ':' !in w[..n] && pairs > 1
    ensures HasShape(w, pairs) <==> Key.IsHexPair(w[..n]) && HasShape(w[n + 1..], pairs - 1)
  {
    var first, rest := w[..n], w[n + 1..];
    if HasShape(w, pairs) {
      NotBefore(w, n, 2);
      assert n == 2;
      forall i | 0 <= i < |rest| ensures if i % 3 == 2 then rest[i] == ':' else IsHexDigit(rest[i]) {
        assert rest[i] == w[i + 3];
      }
    }
    if Key.IsHexPair(first) && HasShape(rest, pairs - 1) {
      assert n == 2;
      forall i | 0 <= i < |w| ensures if i % 3 == 2 then w[i] == ':' else IsHexDigit(w[i]) {
        if i >= 3 { assert w[i] == rest[i - 3]; } else if i < 2 { assert w[i] == first[i]; }
      }
    }
  }

  predicate IsZeroMac(w: string) {
    |w| == 17 && forall i :: 0 <= i < 17 ==> w[i] == if i % 3 == 2 then ':' else '0'
  }

  /** The value is one word, six pairs of hexadecimal digits between colons, not all zero. */
  ghost predicate IsMacWord(value: string, w: string) {
    Words(value) == [w] && HasShape(w, 6) && !IsZeroMac(w)
  }

  lemma ShapeIsWord(w: string, pairs: nat)
    requires HasShape(w, pairs) && w != ""
    ensures IsWord(w)
  {
  }

  lemma ShapeForgetsCase(w: string, pairs: nat)
    ensures HasShape(w, pairs) <==> HasShape(Lower(w), pairs)
    ensures IsZeroMac(w) <==> IsZeroMac(Lower(w))
  {
    if HasShape(Lower(w), pairs) {
      forall i | 0 <= i < |w| ensures if i % 3 == 2 then w[i] == ':' else IsHexDigit(w[i]) {
        assert LowerChar(w[i]) == Lower(w)[i];
      }
    }
    if IsZeroMac(Lower(w)) {
      forall i | 0 <= i < 17 ensures w[i] == if i % 3 == 2 then ':' else '0' {
        assert LowerChar(w[i]) == Lower(w)[i];
      }
    }
  }

  lemma ZeroMac(m: string)
    ensures m == "00:00:00:00:00:00" <==> IsZeroMac(m)
  {
  }

  lemma OneLowered(value: string, m: string)
    requires m == Lower(Collapse(value)) && IsWord(m)
    ensures |Words(value)| == 1 && Lower(Words(value)[0]) == m
  {
    LowerCollapse(value);
    OneWord(m);
    assert LowerAll(Words(value)) == [m];
    assert LowerAll(Words(value))[0] == m;
  }

  lemma MacIsNothingElse(value: string, w: string)
    requires Words(value) == [w] && HasShape(w, 6)
    ensures Collapse(value) == w && Key.NormalizeValue(value) == Some(w)
  {
    BindNothing(value);
    if Lower(w) in Key.PLACEHOLDERS { PlaceholdersAreShort(Lower(w)); }
  }

  lemma PlaceholdersAreShort(p: string)
    requires p in Key.PLACEHOLDERS
    ensures |p| != 17
  {
  }

  /** `normalize_mac` of the bind id accepts exactly such words, and folds their capitals. */
  lemma MacExactly(value: string)
    ensures Key.NormalizeMac(value).Some? <==> exists w :: IsMacWord(value, w)
    ensures forall w :: IsMacWord(value, w) ==> Key.NormalizeMac(value).Some? && FoldedWord(w, Key.NormalizeMac(value).value)
  {
    if Key.NormalizeMac(value).Some? {
      var m := Key.NormalizeMac(value).value;
      BindNothing(value);
      PairsExactly(m, 6);
      ZeroMac(m);
      ShapeIsWord(m, 6);
      OneLowered(value, m);
      ShapeForgetsCase(Words(value)[0], 6);
      assert IsMacWord(value, Words(value)[0]);
    }
    forall w | IsMacWord(value, w) ensures Key.NormalizeMac(value) == Some(Lower(w)) && FoldedWord(w, Lower(w)) {
      MacIsNothingElse(value, w);
      ShapeForgetsCase(w, 6);
      PairsExactly(Lower(w), 6);
      ZeroMac(Lower(w));
    }
  }

  // ----- the order of texts -----

  /** The texts are equal up to i, where the first has a smaller character. */
  predicate DiffersAt(a: string, b: string, i: nat) {
    i < |a| && i < |b| && a[..i] == b[..i] && a[i] < b[i]
  }

  /** The order of texts: a prefix comes first, else the smaller character decides at the first
      place where they differ. */
  lemma {:induction false} LeqExactly(a: string, b: string)
    ensures Leq(a, b) <==> a <= b || exists i: nat :: DiffersAt(a, b, i)
  {
    if a != "" && b != "" && a[0] == b[0] {
      var c, a', b' := a[0], a[1..], b[1..];
      LeqExactly(a', b');
      HeadAndTail(a);
      HeadAndTail(b);
      forall i: nat | DiffersAt(a', b', i) ensures DiffersAt(a, b, i + 1) {
        assert a[..i + 1] == [c] + a'[..i] && b[..i + 1] == [c] + b'[..i];
      }
      forall i: nat | DiffersAt(a, b, i) ensures i > 0 && DiffersAt(a', b', i - 1) {
        assert a'[..i - 1] == a[..i][1..] && b'[..i - 1] == b[..i][1..];
      }
      assert a <= b <==> a' <= b';
    } else if a != "" && b != "" {
      assert a[0] < b[0] ==> DiffersAt(a, b, 0);
      forall i: nat | DiffersAt(a, b, i) ensures i == 0 {
      }
    }
  }
}
