/** The ids that folding gives to PCI devices nobody claims. */
module PciIds {
  import opened Strings
  import opened Merge

  const PCI := "pci:"
  const OTHER := "other-pci:"

  predicate StartsWith(s: string, what: string) { |what| <= |s| && s[..|what|] == what }

  /** A text without the pattern is left as it is. */
  lemma {:induction false} ReplaceNothing(s: string, what: string, code: string)
    requires what != "" && forall i :: 0 <= i <= |s| ==> !StartsWith(s[i..], what)
    ensures ReplaceText(s, what, code) == s
    decreases |s|
  {
    if |s| >= |what| {
      assert s[0..] == s;
      var rest := s[1..];
      forall i | 0 <= i <= |rest| ensures !StartsWith(rest[i..], what) {
        assert rest[i..] == s[i + 1..];
      }
      ReplaceNothing(rest, what, code);
      assert s == [s[0]] + rest;
    }
  }

  /** The pattern occurs here for the first time. */
  predicate OccursFirst(s: string, what: string, n: nat) {
    n + |what| <= |s| && StartsWith(s[n..], what) && forall i :: 0 <= i < n ==> !StartsWith(s[i..], what)
  }

  /** Up to the first place where the pattern occurs nothing changes, and the replacement goes
      on behind it; with `ReplaceNothing` this is all of `str::replace`. */
  lemma {:induction false} ReplaceFirst(s: string, what: string, code: string, n: nat)
    requires what != "" && OccursFirst(s, what, n)
    ensures ReplaceText(s, what, code) == s[..n] + (code + ReplaceText(s[n + |what|..], what, code))
    decreases n
  {
    if n > 0 {
      var rest := s[1..];
      FirstInRest(s, rest, what, code, n);
      ReplaceFirst(rest, what, code, n - 1);
      HeadOver(s, rest, n, code + ReplaceText(s[n + |what|..], what, code), ReplaceText(rest, what, code));
    } else {
      ReplaceHere(s, what, code);
    }
  }

  lemma ReplaceHere(s: string, what: string, code: string)
    requires what != "" && StartsWith(s[0..], what)
    ensures ReplaceText(s, what, code) == s[..0] + (code + ReplaceText(s[|what|..], what, code))
  {
    assert s[0..] == s;
  }

  lemma FirstInRest(s: string, rest: string, what: string, code: string, n: nat)
    requires what != "" && OccursFirst(s, what, n) && n > 0 && rest == s[1..]
    ensures OccursFirst(rest, what, n - 1) && rest[n - 1 + |what|..] == s[n + |what|..]
    ensures ReplaceText(s, what, code) == [s[0]] + ReplaceText(rest, what, code)
  {
    assert s[0..] == s;
    assert rest[n - 1..] == s[n..];
    forall i | 0 <= i < n - 1 ensures !StartsWith(rest[i..], what) {
      assert rest[i..] == s[i + 1..];
    }
  }

  lemma HeadOver(s: string, rest: string, n: nat, tail: string, replaced: string)
    requires 0 < n <= |s| && rest == s[1..] && replaced == rest[..n - 1] + tail
    ensures [s[0]] + replaced == s[..n] + tail
  {
  }

  // ----- the new ids can be told apart -----

  function Forth(s: string): string { ReplaceText(s, PCI, OTHER) }

  function Back(s: string): string { ReplaceText(s, OTHER, PCI) }

  lemma FirstChar(s: string, p: string)
    requires StartsWith(Forth(s), p) && p != "" && |s| >= 4
    ensures s[..4] == PCI ==> p[0] == 'o'
  {
    assert p[0] == Forth(s)[..|p|][0];
  }

  /** What the replaced text starts with, the text itself starts with, as far as the inserted
      text is not involved. */
  lemma {:induction false} StartIsKept(s: string, p: string)
    requires StartsWith(Forth(s), p) && 'o' !in p
    ensures StartsWith(s, p)
    decreases |p|
  {
    if p != "" && |s| >= 4 {
      FirstChar(s, p);
      assert p[0] in p;
      var rest := s[1..];
      assert Forth(s) == [s[0]] + Forth(rest);
      assert p[0] == Forth(s)[..|p|][0] == s[0];
      assert Forth(rest)[..|p| - 1] == Forth(s)[..|p|][1..] == p[1..];
      StartIsKept(rest, p[1..]);
      assert s[..|p|] == [s[0]] + rest[..|p| - 1];
    }
  }

  /** The inserted text never comes about in another way. */
  lemma OnlyInserted(s: string)
    requires |s| >= 4 && s[..4] != PCI
    ensures !StartsWith(Forth(s), OTHER)
  {
    if StartsWith(Forth(s), OTHER) {
      var rest, there := s[1..], Forth(s);
      assert there == [s[0]] + Forth(rest);
      var tail := OTHER[1..];
      assert Forth(rest)[..9] == there[..10][1..] == tail;
      assert tail == "ther-pci:" && there[0] == there[..10][0] == 'o';
      assert there[6] == there[..10][6] == 'p';
      StartIsKept(rest, tail);
      WouldBeReplaced(s, rest);
    }
  }

  lemma WouldBeReplaced(s: string, rest: string)
    requires s != "" && rest == s[1..] && StartsWith(rest, "ther-pci:") && s[0] == 'o'
    ensures |Forth(s)| > 6 && Forth(s)[6] == 'o'
  {
    assert forall i :: 1 <= i < 10 ==> s[i] == rest[..9][i - 1];
    assert s[6..][..4] == PCI;
    forall i | 0 <= i < 6 ensures !StartsWith(s[i..], PCI) {
      assert s[i] != 'p';
    }
    ReplaceFirst(s, PCI, OTHER, 6);
  }

  lemma BackAcross(x: string)
    ensures Back(OTHER + x) == PCI + Back(x)
  {
    assert (OTHER + x)[..10] == OTHER && (OTHER + x)[10..] == x;
  }

  lemma BackOver(c: char, x: string)
    requires !StartsWith([c] + x, OTHER)
    ensures Back([c] + x) == [c] + Back(x)
  {
    assert ([c] + x)[1..] == x;
  }

  /** Replacing the other way round gives the id back. */
  lemma {:induction false} BackForth(s: string)
    ensures Back(Forth(s)) == s
    decreases |s|
  {
    if |s| >= 4 {
      if s[..4] == PCI {
        BackForth(s[4..]);
        BackAcross(Forth(s[4..]));
        assert s == PCI + s[4..];
      } else {
        BackForth(s[1..]);
        OnlyInserted(s);
        BackOver(s[0], Forth(s[1..]));
        assert s == [s[0]] + s[1..];
      }
    }
  }

  /** Folding gives different ids to different PCI devices, and the address that their ids name
      can be read from the new ones. */
  lemma FallbackIdsDistinct(d: Device, e: Device)
    ensures OtherPciFrom(d).id == OtherPciFrom(e).id <==> d.id == e.id
  {
    BackForth(d.id);
    BackForth(e.id);
  }

  lemma FallbackId(d: Device, address: string)
    requires d.id == PCI + address && forall i :: 0 <= i <= |address| ==> !StartsWith(address[i..], PCI)
    ensures OtherPciFrom(d).id == OTHER + address
  {
    assert d.id[4..] == address && d.id[..4] == PCI;
    ReplaceNothing(address, PCI, OTHER);
  }
}
