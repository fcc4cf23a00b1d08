/** The component keys and the payload of the bind id (before it is hashed). */
module Key {
  import opened Wrappers
  import opened Strings
  import opened Records

  const PLACEHOLDERS := {
    "none", "n/a", "not specified", "no asset tag", "to be filled by o.e.m.", "system serial number", "default string",
    "unknown"}

  /** Compared without regard to ASCII case; the placeholders are lower-case. */
  predicate IsPlaceholder(value: string) { Lower(Collapse(value)) in PLACEHOLDERS }

  function NormalizeValue(value: string): Option<string> {
    var normalized := Collapse(value);
    if normalized == "" || IsPlaceholder(normalized) then None else Some(normalized)
  }

  /** Normalizing a normalized value changes nothing. */
  lemma NormalizeIdempotent(value: string)
    ensures NormalizeValue(value).Some? ==> NormalizeValue(NormalizeValue(value).value) == NormalizeValue(value)
    ensures NormalizeValue(Collapse(value)) == NormalizeValue(value)
  {
    CollapseIdempotent(value);
  }

  predicate IsHexDigit(c: char) { '0' <= c <= '9' || 'a' <= c <= 'f' || 'A' <= c <= 'F' }

  predicate IsHexPair(part: string) { |part| == 2 && IsHexDigit(part[0]) && IsHexDigit(part[1]) }

  predicate IsMac(s: string) {
    var parts := Split(s, ':');
    |parts| == 6 && forall i :: 0 <= i < 6 ==> IsHexPair(parts[i])
  }

  function NormalizeMac(value: string): Option<string> {
    var normalized := NormalizeValue(value);
    if normalized.None? then None
    else
      var mac := Lower(normalized.value);
      if mac == "00:00:00:00:00:00" || !IsMac(mac) then None else Some(mac)
  }

  lemma NormalizeMacIdempotent(value: string)
    ensures NormalizeMac(value).Some? ==> NormalizeMac(NormalizeMac(value).value) == NormalizeMac(value)
  {
    CollapseLowered(value);
    LowerIdempotent(Collapse(value));
    CollapseIdempotent(value);
  }

  function NormalizeField(name: string, value: string): Option<string> {
    if name == "mac" then NormalizeMac(value) else NormalizeValue(value)
  }

  function ComponentKey(kind: string, raw: seq<RawField>): Option<string> {
    var fields := NormalizedFields(raw, NormalizeField);
    if fields == [] then None else Some(RecordText(UPPER, kind, fields))
  }

  /** What the callers pass: an identifier as kind, distinct identifiers as names. */
  ghost predicate Regular(kind: string, raw: seq<RawField>) { PlainKind(kind) && PlainRaw(raw) && DistinctNames(raw) }

  /** A key stands for exactly its kind and its normalized field map: two keys are equal if
      and only if those are, and the order of the fields does not matter. */
  lemma KeyExactly(kind: string, raw: seq<RawField>, kind': string, raw': seq<RawField>)
    requires Regular(kind, raw) && Regular(kind', raw')
    requires ComponentKey(kind, raw).Some? && ComponentKey(kind', raw').Some?
    ensures ComponentKey(kind, raw) == ComponentKey(kind', raw') <==> kind == kind' && SameMap(raw, raw', NormalizeField)
  {
    NormalizedArePlain(raw, NormalizeField);
    NormalizedArePlain(raw', NormalizeField);
    FieldsAreMap(raw, raw', NormalizeField);
    if ComponentKey(kind, raw) == ComponentKey(kind', raw') {
      RecordInjective(UPPER, kind, NormalizedFields(raw, NormalizeField), kind', NormalizedFields(raw', NormalizeField));
    }
  }

  /** The text that is hashed. */
  function Payload(keys: seq<string>): string { Join(Sort(keys), "||") }

  ghost predicate IsKey(s: string) {
    exists kind, raw :: Regular(kind, raw) && ComponentKey(kind, raw) == Some(s)
  }

  lemma KeysStayApart(s: string)
    requires IsKey(s)
    ensures s != "" && Apart(s, "||")
  {
    var kind, raw :| Regular(kind, raw) && ComponentKey(kind, raw) == Some(s);
    NormalizedArePlain(raw, NormalizeField);
    RecordSingleBars(UPPER, kind, NormalizedFields(raw, NormalizeField));
    SingleBarsApart(s);
  }

  lemma SortedKeysStayApart(keys: seq<string>)
    requires forall s :: s in keys ==> IsKey(s)
    ensures Parts(Sort(keys), "||")
  {
    SortSorts(keys, (x: string) => x);
    forall i | 0 <= i < |Sort(keys)| ensures Sort(keys)[i] != "" && Apart(Sort(keys)[i], "||") {
      assert Sort(keys)[i] in multiset(keys);
      KeysStayApart(Sort(keys)[i]);
    }
  }

  /** The payload of a list of component keys is uniquely decodable and independent of their
      order: two payloads are equal if and only if the two multisets of keys are. */
  lemma PayloadExactly(keys: seq<string>, keys': seq<string>)
    requires forall s :: s in keys ==> IsKey(s)
    requires forall s :: s in keys' ==> IsKey(s)
    ensures Payload(keys) == Payload(keys') <==> multiset(keys) == multiset(keys')
  {
    SortExactly(keys, keys', (x: string) => x);
    if Payload(keys) == Payload(keys') {
      SortedKeysStayApart(keys);
      SortedKeysStayApart(keys');
      JoinInjective(Sort(keys), Sort(keys'), "||");
    }
  }
}
