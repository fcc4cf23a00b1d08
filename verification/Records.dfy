/** The text of one identity record, `kind:name=value|name=value`, as both identity encodings
    build it, with the escaping that keeps it readable back. */
module Records {
  import opened Wrappers
  import opened Strings

  // ----- escaping by three replaces in a row -----

  /** The codes that replace '|' and '='; '%' is always replaced by "%25". */
  datatype Codes = Codes(bar: string, equal: string)

  const UPPER := Codes("%7C", "%3D")
  const LOWER := Codes("%7c", "%3d")

  predicate IsCodes(k: Codes) { k == UPPER || k == LOWER }

  /** `str::replace` of one character. */
  function Replace(s: string, c: char, code: string): string {
    if s == "" then "" else (if s[0] == c then code else [s[0]]) + Replace(s[1..], c, code)
  }

  function Escape(k: Codes, s: string): string {
    Replace(Replace(Replace(s, '%', "%25"), '|', k.bar), '=', k.equal)
  }

  /** What each character becomes. */
  function Code(k: Codes, c: char): string {
    if c == '%' then "%25" else if c == '|' then k.bar else if c == '=' then k.equal else [c]
  }

  lemma {:induction false} ReplaceConcat(a: string, b: string, c: char, code: string)
    ensures Replace(a + b, c, code) == Replace(a, c, code) + Replace(b, c, code)
  {
    if a == "" {
      assert a + b == b;
    } else {
      assert (a + b)[0] == a[0] && (a + b)[1..] == a[1..] + b;
      ReplaceConcat(a[1..], b, c, code);
    }
  }

  lemma {:induction false} ReplaceNothing(s: string, c: char, code: string)
    requires c !in s
    ensures Replace(s, c, code) == s
  {
    if s != "" { ReplaceNothing(s[1..], c, code); }
  }

  lemma ReplaceChar(c: char, d: char, code: string)
    ensures Replace([c], d, code) == if c == d then code else [c]
  {
    assert [c][1..] == "";
  }

  /** Later replaces do not touch what earlier ones wrote: one pass does the same. */
  lemma CharEscape(k: Codes, c: char)
    requires IsCodes(k)
    ensures Escape(k, [c]) == Code(k, c)
  {
    var first := Replace([c], '%', "%25");
    ReplaceChar(c, '%', "%25");
    var second := Replace(first, '|', k.bar);
    if c == '%' {
      ReplaceNothing(first, '|', k.bar);
      ReplaceNothing(second, '=', k.equal);
    } else {
      ReplaceChar(c, '|', k.bar);
      if c == '|' { ReplaceNothing(second, '=', k.equal); } else { ReplaceChar(c, '=', k.equal); }
    }
  }

  lemma EscapeStep(k: Codes, s: string)
    requires IsCodes(k) && s != ""
    ensures Escape(k, s) == Code(k, s[0]) + Escape(k, s[1..])
  {
    assert s == [s[0]] + s[1..];
    ReplaceConcat([s[0]], s[1..], '%', "%25");
    ReplaceConcat(Replace([s[0]], '%', "%25"), Replace(s[1..], '%', "%25"), '|', k.bar);
    ReplaceConcat(Replace(Replace([s[0]], '%', "%25"), '|', k.bar), Replace(Replace(s[1..], '%', "%25"), '|', k.bar), '=', k.equal);
    CharEscape(k, s[0]);
  }

  /** The three structure characters become these codes in the bind id, and the same with small
      letters in the snapshot records; every other character stays. */
  lemma EscapeCodes(c: char, rest: string)
    ensures Escape(UPPER, [c] + rest)
         == (if c == '%' then "%25" else if c == '|' then "%7C" else if c == '=' then "%3D" else [c]) + Escape(UPPER, rest)
    ensures Escape(LOWER, [c] + rest)
         == (if c == '%' then "%25" else if c == '|' then "%7c" else if c == '=' then "%3d" else [c]) + Escape(LOWER, rest)
  {
    assert ([c] + rest)[1..] == rest;
    EscapeStep(UPPER, [c] + rest);
    EscapeStep(LOWER, [c] + rest);
  }

  /** The left inverse: three characters after a '%' mark are one code. */
  function Unescape(k: Codes, s: string): string
    decreases |s|
  {
    if |s| >= 3 && s[..3] == "%25" then "%" + Unescape(k, s[3..])
    else if |s| >= 3 && s[..3] == k.bar then "|" + Unescape(k, s[3..])
    else if |s| >= 3 && s[..3] == k.equal then "=" + Unescape(k, s[3..])
    else if s == "" then ""
    else [s[0]] + Unescape(k, s[1..])
  }

  lemma UnescapeCode(k: Codes, c: char, rest: string)
    requires IsCodes(k)
    ensures Unescape(k, Code(k, c) + rest) == [c] + Unescape(k, rest)
  {
    var s := Code(k, c) + rest;
    if c == '%' || c == '|' || c == '=' {
      assert s[..3] == Code(k, c) && s[3..] == rest;
    } else {
      assert s[0] == c && s[1..] == rest;
      assert |s| >= 3 ==> s[..3][0] == c;
    }
  }

  /** Every text survives escaping and unescaping. */
  lemma {:induction false} UnescapeEscape(k: Codes, s: string)
    requires IsCodes(k)
    ensures Unescape(k, Escape(k, s)) == s
  {
    if s != "" {
      EscapeStep(k, s);
      UnescapeEscape(k, s[1..]);
      UnescapeCode(k, s[0], Escape(k, s[1..]));
      assert s == [s[0]] + s[1..];
    }
  }

  /** Escaped text is free of the two structure characters. */
  lemma {:induction false} EscapeIsPlain(k: Codes, s: string)
    requires IsCodes(k)
    ensures '|' !in Escape(k, s) && '=' !in Escape(k, s)
  {
    if s != "" {
      EscapeStep(k, s);
      EscapeIsPlain(k, s[1..]);
    }
  }

  // ----- one record -----

  /** A field name and its normalized value. */
  type Field = (string, string)

  function FieldText(k: Codes, f: Field): string { f.0 + "=" + Escape(k, f.1) }

  function FieldTexts(k: Codes, fields: seq<Field>): seq<string> {
    seq(|fields|, i requires 0 <= i < |fields| => FieldText(k, fields[i]))
  }

  function RecordText(k: Codes, kind: string, fields: seq<Field>): string {
    kind + ":" + Join(FieldTexts(k, fields), "|")
  }

  /** The kinds and names that the callers pass are identifiers. */
  predicate PlainKind(kind: string) { ':' !in kind && '|' !in kind }

  predicate PlainName(name: string) { '=' !in name && '|' !in name }

  ghost predicate PlainNames(fields: seq<Field>) {
    forall f :: f in fields ==> PlainName(f.0)
  }

  lemma FieldInjective(k: Codes, f: Field, g: Field)
    requires IsCodes(k) && PlainName(f.0) && PlainName(g.0) && FieldText(k, f) == FieldText(k, g)
    ensures f == g
  {
    CharApart(f.0, '=');
    CharApart(g.0, '=');
    FirstPart(f.0, Escape(k, f.1), g.0, Escape(k, g.1), "=");
    UnescapeEscape(k, f.1);
    UnescapeEscape(k, g.1);
  }

  lemma FieldsArePlain(k: Codes, fields: seq<Field>)
    requires IsCodes(k) && PlainNames(fields)
    ensures Parts(FieldTexts(k, fields), "|")
    ensures forall s :: s in FieldTexts(k, fields) ==> '|' !in s && s != ""
  {
    forall i | 0 <= i < |fields| ensures '|' !in FieldTexts(k, fields)[i] && Apart(FieldTexts(k, fields)[i], "|") {
      assert fields[i] in fields;
      EscapeIsPlain(k, fields[i].1);
      CharApart(FieldText(k, fields[i]), '|');
    }
  }

  /** A record text determines its kind and its fields. */
  lemma RecordInjective(k: Codes, kind: string, fields: seq<Field>, kind': string, fields': seq<Field>)
    requires IsCodes(k) && PlainKind(kind) && PlainKind(kind') && PlainNames(fields) && PlainNames(fields')
    requires RecordText(k, kind, fields) == RecordText(k, kind', fields')
    ensures kind == kind' && fields == fields'
  {
    CharApart(kind, ':');
    CharApart(kind', ':');
    FirstPart(kind, Join(FieldTexts(k, fields), "|"), kind', Join(FieldTexts(k, fields'), "|"), ":");
    FieldsArePlain(k, fields);
    FieldsArePlain(k, fields');
    JoinInjective(FieldTexts(k, fields), FieldTexts(k, fields'), "|");
    assert |FieldTexts(k, fields)| == |fields| && |FieldTexts(k, fields')| == |fields'|;
    forall i | 0 <= i < |fields| ensures fields[i] == fields'[i] {
      assert fields[i] in fields && fields'[i] in fields';
      assert FieldTexts(k, fields)[i] == FieldTexts(k, fields')[i];
      FieldInjective(k, fields[i], fields'[i]);
    }
  }

  // ----- normalized fields -----

  datatype RawField = RawField(name: string, value: Option<string>)

  /** The fields that have a value after normalization, in the order given. */
  function Kept(raw: seq<RawField>, normalize: (string, string) -> Option<string>): seq<Field> {
    if raw == [] then []
    else
      var first := raw[0];
      var value := if first.value.Some? then normalize(first.name, first.value.value) else None;
      (if value.Some? then [(first.name, value.value)] else []) + Kept(raw[1..], normalize)
  }

  lemma {:induction false} KeptNames(raw: seq<RawField>, normalize: (string, string) -> Option<string>, f: Field)
    requires f in Kept(raw, normalize)
    ensures exists g :: g in raw && g.name == f.0
  {
    var value := if raw[0].value.Some? then normalize(raw[0].name, raw[0].value.value) else None;
    if value.Some? && f == (raw[0].name, value.value) {
      assert raw[0] in raw;
    } else {
      KeptNames(raw[1..], normalize, f);
    }
  }

  function NameOf(f: Field): string { f.0 }

  function NormalizedFields(raw: seq<RawField>, normalize: (string, string) -> Option<string>): seq<Field> {
    SortBy(Kept(raw, normalize), NameOf)
  }

  ghost predicate DistinctNames(raw: seq<RawField>) {
    forall i, j :: 0 <= i < j < |raw| ==> raw[i].name != raw[j].name
  }

  ghost predicate PlainRaw(raw: seq<RawField>) {
    forall f :: f in raw ==> PlainName(f.name)
  }

  lemma NormalizedArePlain(raw: seq<RawField>, normalize: (string, string) -> Option<string>)
    requires PlainRaw(raw)
    ensures PlainNames(NormalizedFields(raw, normalize))
  {
    var kept := Kept(raw, normalize);
    SortSorts(kept, NameOf);
    forall f | f in NormalizedFields(raw, normalize) ensures PlainName(f.0) {
      assert f in multiset(kept);
      KeptNames(raw, normalize, f);
    }
  }

  /** The field map that a record stands for. */
  function ValueOf(raw: seq<RawField>, normalize: (string, string) -> Option<string>, name: string): Option<string> {
    if raw == [] then None
    else if raw[0].name == name && raw[0].value.Some? && normalize(name, raw[0].value.value).Some?
    then normalize(name, raw[0].value.value)
    else ValueOf(raw[1..], normalize, name)
  }

  lemma {:induction false} KeptIsMap(raw: seq<RawField>, normalize: (string, string) -> Option<string>, f: Field)
    requires DistinctNames(raw)
    ensures f in Kept(raw, normalize) <==> ValueOf(raw, normalize, f.0) == Some(f.1)
    ensures (forall i :: 0 <= i < |raw| ==> raw[i].name != f.0) ==> ValueOf(raw, normalize, f.0).None?
  {
    if raw != [] { KeptIsMap(raw[1..], normalize, f); }
  }

  lemma {:induction false} KeptOnce(raw: seq<RawField>, normalize: (string, string) -> Option<string>)
    requires DistinctNames(raw)
    ensures forall i, j :: 0 <= i < j < |Kept(raw, normalize)| ==> Kept(raw, normalize)[i].0 != Kept(raw, normalize)[j].0
  {
    if raw != [] {
      KeptOnce(raw[1..], normalize);
      var rest := Kept(raw[1..], normalize);
      forall j | 0 <= j < |rest| ensures rest[j].0 != raw[0].name {
        KeptNames(raw[1..], normalize, rest[j]);
        var g :| g in raw[1..] && g.name == rest[j].0;
      }
    }
  }

  ghost predicate SameMap(raw: seq<RawField>, raw': seq<RawField>, normalize: (string, string) -> Option<string>) {
    forall name :: ValueOf(raw, normalize, name) == ValueOf(raw', normalize, name)
  }

  /** The sorted fields are exactly the field map, whatever the order they were given in. */
  lemma FieldsAreMap(raw: seq<RawField>, raw': seq<RawField>, normalize: (string, string) -> Option<string>)
    requires DistinctNames(raw) && DistinctNames(raw')
    ensures NormalizedFields(raw, normalize) == NormalizedFields(raw', normalize) <==> SameMap(raw, raw', normalize)
  {
    var kept, kept' := Kept(raw, normalize), Kept(raw', normalize);
    KeptOnce(raw, normalize);
    KeptOnce(raw', normalize);
    SortExactly(kept, kept', NameOf);
    if SameMap(raw, raw', normalize) {
      forall f ensures f in kept <==> f in kept' {
        KeptIsMap(raw, normalize, f);
        KeptIsMap(raw', normalize, f);
      }
      SameElements(kept, kept');
    }
    if multiset(kept) == multiset(kept') {
      forall name ensures ValueOf(raw, normalize, name) == ValueOf(raw', normalize, name) {
        SameValue(raw, raw', normalize, name);
      }
    }
  }

  lemma SameValue(raw: seq<RawField>, raw': seq<RawField>, normalize: (string, string) -> Option<string>, name: string)
    requires DistinctNames(raw) && DistinctNames(raw')
    requires multiset(Kept(raw, normalize)) == multiset(Kept(raw', normalize))
    ensures ValueOf(raw, normalize, name) == ValueOf(raw', normalize, name)
  {
    var v, v' := ValueOf(raw, normalize, name), ValueOf(raw', normalize, name);
    if v.Some? {
      KeptIsMap(raw, normalize, (name, v.value));
      KeptIsMap(raw', normalize, (name, v.value));
      assert (name, v.value) in multiset(Kept(raw, normalize));
    } else if v'.Some? {
      KeptIsMap(raw, normalize, (name, v'.value));
      KeptIsMap(raw', normalize, (name, v'.value));
      assert (name, v'.value) in multiset(Kept(raw', normalize));
    }
  }

  // ----- no double bar -----

  /** Every bar is followed by something else. */
  predicate SingleBars(s: string) {
    forall i :: 0 <= i < |s| && s[i] == '|' ==> i + 1 < |s| && s[i + 1] != '|'
  }

  lemma {:induction false} JoinedSingleBars(parts: seq<string>)
    requires forall s :: s in parts ==> '|' !in s && s != ""
    ensures SingleBars(Join(parts, "|"))
    ensures parts != [] ==> Join(parts, "|") != "" && Join(parts, "|")[0] != '|'
  {
    if |parts| >= 2 {
      assert parts[0] in parts;
      assert forall s :: s in parts[1..] ==> s in parts;
      JoinedSingleBars(parts[1..]);
      var p, rest := parts[0], Join(parts[1..], "|");
      BarBetween(p, rest);
    } else if |parts| == 1 {
      assert parts[0] in parts;
    }
  }

  lemma BarBetween(p: string, rest: string)
    requires '|' !in p && p != "" && SingleBars(rest) && rest != "" && rest[0] != '|'
    ensures SingleBars(p + "|" + rest) && (p + "|" + rest)[0] != '|'
  {
    var s := p + "|" + rest;
    forall i | 0 <= i < |s| && s[i] == '|' ensures i + 1 < |s| && s[i + 1] != '|' {
      if i > |p| { assert s[i] == rest[i - |p| - 1]; }
    }
  }

  lemma RecordSingleBars(k: Codes, kind: string, fields: seq<Field>)
    requires IsCodes(k) && PlainKind(kind) && PlainNames(fields) && fields != []
    ensures SingleBars(RecordText(k, kind, fields)) && RecordText(k, kind, fields) != ""
  {
    FieldsArePlain(k, fields);
    JoinedSingleBars(FieldTexts(k, fields));
    var s, rest := RecordText(k, kind, fields), Join(FieldTexts(k, fields), "|");
    forall i | 0 <= i < |s| && s[i] == '|' ensures i + 1 < |s| && s[i + 1] != '|' {
      if i > |kind| { assert s[i] == rest[i - |kind| - 1]; }
    }
  }

  lemma SingleBarsApart(s: string)
    requires SingleBars(s)
    ensures Apart(s, "||")
  {
    forall i: nat | i < |s| ensures !OccursAt(s + "||", "||", i) {
      var t := s + "||";
      assert t[i] == s[i] && (t[i..i + 2][0] != '|' || t[i..i + 2][1] != '|');
    }
  }
}
