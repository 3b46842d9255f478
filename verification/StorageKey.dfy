/** Storage keys for evidence blobs: evidence/{session}/{flag}/{type}.{ext}. */
module StorageKeys {
  import opened FusionTypes
  import opened Strings

  // -------------------------------------------------------------------------
  // UUIDs and their text form (RFC 4122, section 3)
  // -------------------------------------------------------------------------

  function Pow16(k: nat): (p: nat)
    ensures p > 0
  {
    if k == 0 then 1 else 16 * Pow16(k - 1)
  }

  /** A 128-bit value. */
  type Uuid = n: nat | n < Pow16(32)
    witness 0

  function DigitValue(c: char): (d: Option<nat>)
    ensures d.Some? ==> d.value < 16
  {
    if '0' <= c <= '9' then Some((c - '0') as nat)
    else if 'a' <= c <= 'f' then Some((c - 'a') as nat + 10)
    else if 'A' <= c <= 'F' then Some((c - 'A') as nat + 10)
    else None
  }

  function DigitChar(d: nat): (c: char)
    requires d < 16
    ensures DigitValue(c) == Some(d) && IsLowerHex(c)
  {
    if d < 10 then '0' + d as char else 'a' + (d - 10) as char
  }

  predicate IsLowerHex(c: char) {
    '0' <= c <= '9' || 'a' <= c <= 'f'
  }

  predicate AllLowerHex(s: string) {
    forall i :: 0 <= i < |s| ==> IsLowerHex(s[i])
  }

  /** The k lowest hexadecimal digits, zero-padded: '%0kx'. */
  function HexDigits(n: nat, k: nat): (s: string)
    ensures |s| == k && AllLowerHex(s)
  {
    if k == 0 then "" else HexDigits(n / 16, k - 1) + [DigitChar(n % 16)]
  }

  /** int(s, 16) for plain digits of either case. */
  function HexValue(s: string): Option<nat> {
    if |s| == 0 then Some(0)
    else
      var high, d := HexValue(s[..|s| - 1]), DigitValue(s[|s| - 1]);
      if high == None || d == None then None else Some(16 * high.value + d.value)
  }

  lemma {:induction false} ValueOfDigits(n: nat, k: nat)
    requires n < Pow16(k)
    ensures HexValue(HexDigits(n, k)) == Some(n)
  {
    if k > 0 {
      ValueOfDigits(n / 16, k - 1);
      var s := HexDigits(n, k);
      assert s[..k - 1] == HexDigits(n / 16, k - 1) && s[k - 1] == DigitChar(n % 16);
    }
  }

  lemma {:induction false} LowerDigitBack(c: char)
    requires IsLowerHex(c)
    ensures DigitValue(c).Some? && DigitChar(DigitValue(c).value) == c
  {
  }

  lemma {:induction false} DigitsOfValue(s: string)
    requires HexValue(s).Some?
    ensures HexValue(s).value < Pow16(|s|)
    ensures HexDigits(HexValue(s).value, |s|) == s <==> AllLowerHex(s)
  {
    if |s| > 0 {
      var front, c := s[..|s| - 1], s[|s| - 1];
      DigitsOfValue(front);
      assert s == front + [c];
      var v, d := HexValue(front).value, DigitValue(c).value;
      assert (16 * v + d) / 16 == v && (16 * v + d) % 16 == d;
      assert HexDigits(HexValue(s).value, |s|) == HexDigits(v, |s| - 1) + [DigitChar(d)];
      if IsLowerHex(c) {
        LowerDigitBack(c);
      }
      assert AllLowerHex(s) <==> AllLowerHex(front) && IsLowerHex(c);
      assert HexDigits(HexValue(s).value, |s|) == s <==> HexDigits(v, |s| - 1) == front && DigitChar(d) == c by {
        var t := HexDigits(v, |s| - 1) + [DigitChar(d)];
        assert t[..|s| - 1] == HexDigits(v, |s| - 1) && t[|s| - 1] == DigitChar(d);
      }
    }
  }

  lemma {:induction false} LowerHexHasValue(s: string)
    requires AllLowerHex(s)
    ensures HexValue(s).Some?
  {
    if |s| > 0 {
      LowerHexHasValue(s[..|s| - 1]);
      LowerDigitBack(s[|s| - 1]);
    }
  }

  /** Hyphens after digits 8, 12, 16 and 20. */
  function Hyphenated(h: string): string
    requires |h| == 32
  {
    h[..8] + ['-'] + (h[8..12] + ['-'] + (h[12..16] + ['-'] + (h[16..20] + ['-'] + h[20..])))
  }

  function UuidText(u: Uuid): string {
    Hyphenated(HexDigits(u, 32))
  }

  /** What the UUID constructor does with text: prefixes, braces and hyphens are dropped, and 32
      hexadecimal digits of either case must remain. */
  function BareDigits(s: string): string {
    RemoveChar(Strip(RemoveAll(RemoveAll(s, "urn:"), "uuid:"), {'{', '}'}), '-')
  }

  function ParseUuid(s: string): Option<Uuid> {
    var h := BareDigits(s);
    if |h| != 32 then None
    else
      var v := HexValue(h);
      if v == None then None
      else
        DigitsOfValue(h);
        Some(v.value)
  }

  /** The canonical text form: 36 characters, hyphens in the four places, lower case. */
  predicate Canonical(s: string) {
    && |s| == 36
    && s[8] == s[13] == s[18] == s[23] == '-'
    && AllLowerHex(Unhyphenated(s))
  }

  function Unhyphenated(s: string): (h: string)
    requires |s| == 36
    ensures |h| == 32
  {
    s[..8] + s[9..13] + s[14..18] + s[19..23] + s[24..]
  }

  lemma {:induction false} HyphensBack(h: string)
    requires |h| == 32
    ensures |Hyphenated(h)| == 36 && Unhyphenated(Hyphenated(h)) == h
    ensures Hyphenated(h)[8] == Hyphenated(h)[13] == Hyphenated(h)[18] == Hyphenated(h)[23] == '-'
  {
    var d := h[16..20] + ['-'] + h[20..];
    var c := h[12..16] + ['-'] + d;
    var b := h[8..12] + ['-'] + c;
    var s := Hyphenated(h);
    assert s[..8] == h[..8] && s[8] == '-' && s[9..] == b;
    assert b[..4] == h[8..12] && b[4] == '-' && b[5..] == c;
    assert c[..4] == h[12..16] && c[4] == '-' && c[5..] == d;
    assert d[..4] == h[16..20] && d[4] == '-' && d[5..] == h[20..];
    assert s[9..13] == b[..4] && s[13] == b[4] && s[14..] == c;
    assert s[14..18] == c[..4] && s[18] == c[4] && s[19..] == d;
    assert s[19..23] == d[..4] && s[23] == d[4] && s[24..] == h[20..];
    assert h == h[..8] + h[8..12] + h[12..16] + h[16..20] + h[20..];
  }

  lemma {:induction false} HyphensForth(s: string)
    requires |s| == 36 && s[8] == s[13] == s[18] == s[23] == '-'
    ensures Hyphenated(Unhyphenated(s)) == s
  {
    var h := Unhyphenated(s);
    assert h[..8] == s[..8] && h[8..12] == s[9..13] && h[12..16] == s[14..18] && h[16..20] == s[19..23] && h[20..] == s[24..];
    assert s == s[..8] + ['-'] + (s[9..13] + ['-'] + (s[14..18] + ['-'] + (s[19..23] + ['-'] + s[24..])));
  }

  lemma {:induction false} BareOfHyphenated(h: string)
    requires |h| == 32 && AllLowerHex(h)
    ensures BareDigits(Hyphenated(h)) == h
  {
    var s := Hyphenated(h);
    HyphensBack(h);
    assert forall i :: 0 <= i < 36 ==> IsLowerHex(s[i]) || s[i] == '-';
    NothingToRemove(s, "urn:");
    NothingToRemove(s, "uuid:");
    assert Strip(s, {'{', '}'}) == s;
    RemoveHyphens(h);
  }

  lemma {:induction false} RemoveHyphens(h: string)
    requires |h| == 32 && AllLowerHex(h)
    ensures RemoveChar(Hyphenated(h), '-') == h
  {
    hide RemoveChar;
    var e := h[20..];
    var d := h[16..20] + ['-'] + e;
    var c := h[12..16] + ['-'] + d;
    var b := h[8..12] + ['-'] + c;
    RemoveCharFront(h[..8], b, '-');
    RemoveCharFront(h[8..12], c, '-');
    RemoveCharFront(h[12..16], d, '-');
    RemoveCharFront(h[16..20], e, '-');
    RemoveCharPlain(e, '-');
    assert h == h[..8] + (h[8..12] + (h[12..16] + (h[16..20] + e)));
  }

  /** Printing and parsing back gives the same UUID; and exactly the canonical texts are printed
      back as they were. */
  lemma {:induction false} UuidRoundTrip(u: Uuid)
    ensures ParseUuid(UuidText(u)) == Some(u)
    ensures Canonical(UuidText(u))
  {
    hide BareDigits, HexValue, HexDigits, Hyphenated, Unhyphenated, Pow16;
    var h := HexDigits(u, 32);
    BareOfHyphenated(h);
    ValueOfDigits(u, 32);
    HyphensBack(h);
  }

  lemma {:induction false} CanonicalParses(s: string)
    requires Canonical(s)
    ensures ParseUuid(s).Some? && UuidText(ParseUuid(s).value) == s
  {
    hide BareDigits, HexValue, HexDigits, Hyphenated, Unhyphenated, Pow16;
    var h := Unhyphenated(s);
    HyphensForth(s);
    BareOfHyphenated(h);
    LowerHexHasValue(h);
    DigitsOfValue(h);
  }

  lemma {:induction false} PrintedBackIsCanonical(s: string)
    requires ParseUuid(s).Some?
    ensures UuidText(ParseUuid(s).value) == s <==> Canonical(s)
  {
    hide ParseUuid, UuidText, Canonical;
    UuidRoundTrip(ParseUuid(s).value);
    if Canonical(s) {
      CanonicalParses(s);
    }
  }

  // -------------------------------------------------------------------------
  // Keys
  // -------------------------------------------------------------------------

  function Extension(artifactType: string): (e: Option<string>)
    ensures e.Some? ==> '.' !in e.value && '/' !in e.value && '/' !in artifactType
  {
    if artifactType == "frame" then Some("jpg")
    else if artifactType == "clip" then Some("webm")
    else if artifactType == "audio" then Some("webm")
    else if artifactType == "event_export" then Some("json")
    else None
  }

  /** None: the artifact type is not recognised. */
  function BuildStorageKey(session: Uuid, flag: Uuid, artifactType: string): Option<string> {
    var ext := Extension(artifactType);
    if ext == None then None
    else Some("evidence" + ['/'] + (UuidText(session) + ['/'] + (UuidText(flag) + ['/'] + (artifactType + ['.'] + ext.value))))
  }

  datatype KeyParts = KeyParts(session: Uuid, flag: Uuid, artifactType: string)

  datatype KeyError =
    | WrongPartCount(count: nat)
    | WrongPrefix(prefix: string)
    | BadSession(text: string)
    | BadFlag(text: string)
    | NoDot(filename: string)
    | UnknownType(artifactType: string)
    | WrongExtension(expected: string, got: string)

  datatype ParsedKey = Parsed(parts: KeyParts) | BadKey(error: KeyError)

  function ParseFilename(session: Uuid, flag: Uuid, filename: string): ParsedKey {
    var split := SplitLast(filename, '.');
    if split == None then BadKey(NoDot(filename))
    else
      var (artifactType, ext) := split.value;
      var expected := Extension(artifactType);
      if expected == None then BadKey(UnknownType(artifactType))
      else if ext != expected.value then BadKey(WrongExtension(expected.value, ext))
      else Parsed(KeyParts(session, flag, artifactType))
  }

  function ParseStorageKey(key: string): ParsedKey {
    var parts := Split(key, '/');
    if |parts| != 4 then BadKey(WrongPartCount(|parts|))
    else if parts[0] != "evidence" then BadKey(WrongPrefix(parts[0]))
    else if ParseUuid(parts[1]) == None then BadKey(BadSession(parts[1]))
    else if ParseUuid(parts[2]) == None then BadKey(BadFlag(parts[2]))
    else ParseFilename(ParseUuid(parts[1]).value, ParseUuid(parts[2]).value, parts[3])
  }

  lemma {:induction false} TextHasNoSlash(u: Uuid)
    ensures '/' !in UuidText(u)
  {
    hide HexDigits, Pow16;
  }

  lemma {:induction false} BuiltParts(session: Uuid, flag: Uuid, artifactType: string)
    requires Extension(artifactType).Some?
    ensures Split(BuildStorageKey(session, flag, artifactType).value, '/') ==
      ["evidence", UuidText(session), UuidText(flag), artifactType + ['.'] + Extension(artifactType).value]
  {
    hide Split, UuidText, Extension;
    var file := artifactType + ['.'] + Extension(artifactType).value;
    var tail := UuidText(flag) + ['/'] + file;
    SplitFront("evidence", UuidText(session) + ['/'] + tail, '/');
    TextHasNoSlash(session);
    SplitFront(UuidText(session), tail, '/');
    TextHasNoSlash(flag);
    SplitFront(UuidText(flag), file, '/');
    SplitPlain(file, '/');
  }

  /** Round trip: a built key parses to the very session, flag and type it was built from. */
  lemma {:induction false} BuildThenParse(session: Uuid, flag: Uuid, artifactType: string)
    requires BuildStorageKey(session, flag, artifactType).Some?
    ensures ParseStorageKey(BuildStorageKey(session, flag, artifactType).value) ==
      Parsed(KeyParts(session, flag, artifactType))
  {
    hide Split, SplitLast, UuidText, ParseUuid;
    BuiltParts(session, flag, artifactType);
    UuidRoundTrip(session);
    UuidRoundTrip(flag);
    SplitLastOf(artifactType, Extension(artifactType).value, '.');
  }

  /** Different artifacts never share a key. */
  lemma {:induction false} KeysAreUnique(a: KeyParts, b: KeyParts)
    requires BuildStorageKey(a.session, a.flag, a.artifactType).Some?
    requires BuildStorageKey(a.session, a.flag, a.artifactType) == BuildStorageKey(b.session, b.flag, b.artifactType)
    ensures a == b
  {
    hide BuildStorageKey, ParseStorageKey;
    BuildThenParse(a.session, a.flag, a.artifactType);
    BuildThenParse(b.session, b.flag, b.artifactType);
  }

  /** Parsing is lenient about the spelling of the ids: a key that parses is the key built from
      what it parses to exactly when both ids are spelled canonically. */
  lemma {:induction false} ParseThenBuild(key: string)
    requires ParseStorageKey(key).Parsed?
    ensures var p, parts := ParseStorageKey(key).parts, Split(key, '/');
      BuildStorageKey(p.session, p.flag, p.artifactType) == Some(key) <==> Canonical(parts[1]) && Canonical(parts[2])
  {
    hide Split, UuidText, ParseUuid, Canonical, Join, BuildStorageKey, ParseStorageKey, Extension;
    var p, parts := ParseStorageKey(key).parts, Split(key, '/');
    ParsedShape(key);
    var built := BuildStorageKey(p.session, p.flag, p.artifactType).value;
    BuiltParts(p.session, p.flag, p.artifactType);
    JoinSplit(key, '/');
    JoinSplit(built, '/');
    assert built == key <==> Split(built, '/') == parts;
    PrintedBackIsCanonical(parts[1]);
    PrintedBackIsCanonical(parts[2]);
    assert Split(built, '/')[1] == UuidText(p.session) && Split(built, '/')[2] == UuidText(p.flag);
  }

  lemma {:induction false} ParsedShape(key: string)
    requires ParseStorageKey(key).Parsed?
    ensures var p, parts := ParseStorageKey(key).parts, Split(key, '/');
      && Extension(p.artifactType).Some?
      && BuildStorageKey(p.session, p.flag, p.artifactType).Some?
      && parts == ["evidence", parts[1], parts[2], p.artifactType + ['.'] + Extension(p.artifactType).value]
      && ParseUuid(parts[1]) == Some(p.session) && ParseUuid(parts[2]) == Some(p.flag)
  {
    hide Split, SplitLast, UuidText, ParseUuid, Extension;
  }

  // -------------------------------------------------------------------------
  // The URI stored with an artifact
  // -------------------------------------------------------------------------

  function StorageUri(key: string): string {
    "s3://" + key
  }

  /** What retention takes for the key of a stored URI. */
  function ExtractStorageKey(uri: string): Option<string> {
    if StartsWith(uri, "s3://") then Some(uri[5..])
    else if StartsWith(uri, "evidence/") then Some(uri)
    else None
  }

  /** Retention recovers exactly the key that was sealed, and hence the artifact it belongs to. */
  lemma {:induction false} SealedKeyRecovered(session: Uuid, flag: Uuid, artifactType: string)
    requires BuildStorageKey(session, flag, artifactType).Some?
    ensures var key := BuildStorageKey(session, flag, artifactType).value;
      && ExtractStorageKey(StorageUri(key)) == Some(key)
      && ParseStorageKey(key) == Parsed(KeyParts(session, flag, artifactType))
  {
    hide BuildStorageKey, ParseStorageKey;
    BuildThenParse(session, flag, artifactType);
    var key := BuildStorageKey(session, flag, artifactType).value;
    assert StorageUri(key)[5..] == key;
  }
}
