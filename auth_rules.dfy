/** The pure rules of `controller/authController.js`: the bcrypt-hash test,
    the logo data-URL parser and size limit, the token lifetime, and the
    one-time codes (what is issued, when one is accepted, and the purge). */
module AuthRules {

  import opened Wrappers
  import Text
  import opened Decimal
  import BackupFormat

  // ---------------------------------------------------------------------
  // Stored passwords.

  /** `/^\$2[aby]\$/`: the text starts like a bcrypt hash. */
  predicate IsHashedPassword(password: string) {
    |password| >= 4 && password[0] == '$' && password[1] == '2'
    && (password[2] == 'a' || password[2] == 'b' || password[2] == 'y') && password[3] == '$'
  }

  /** The test holds exactly for the prefixes `$2a$`, `$2b$` and `$2y$`. */
  lemma HashedPasswordPrefixes(password: string)
    ensures IsHashedPassword(password)
        <==> Text.StartsWith(password, "$2a$") || Text.StartsWith(password, "$2b$")
             || Text.StartsWith(password, "$2y$")
  {
    if |password| >= 4 {
      var p := password[..4];
      assert p == [password[0], password[1], password[2], password[3]];
    }
  }

  // ---------------------------------------------------------------------
  // The institute logo.

  const LogoRequired := "Logo is required"
  const LogoInvalid := "Logo must be a valid image data URL"
  const LogoTooLarge := "Logo size must be 5 MB or less"
  const DataImagePrefix := "data:image/"
  /** `5 * 1024 * 1024` bytes. */
  const MaxLogoBytes := 5 * 1024 * 1024

  /** `parseLogoBase64`: the payload after the first comma of the trimmed
      data URL. `None` is a value that is not a string. */
  function ParseLogoBase64(logo: Option<string>): (r: Result<string, string>)
    ensures r == Err(LogoRequired) <==> logo.None? || Text.Trim(logo.value) == []
    ensures r.Ok? ==>
      var t := Text.Trim(logo.value);
      && Text.StartsWith(t, DataImagePrefix)
      && Text.IndexOf(t, ',').Some?
      && r.value == t[Text.IndexOf(t, ',').value + 1..]
      && r.value != []
    ensures logo.Some? && Text.Trim(logo.value) != [] ==>
      var t := Text.Trim(logo.value);
      (r.Ok? <==> Text.StartsWith(t, DataImagePrefix) && Text.IndexOf(t, ',').Some?
                  && Text.IndexOf(t, ',').value + 1 < |t|)
    ensures r.Err? ==> r.error == LogoRequired || r.error == LogoInvalid
  {
    if logo.None? then Err(LogoRequired) else ParseTrimmedLogo(Text.Trim(logo.value))
  }

  /** The parse of the already trimmed text. */
  function ParseTrimmedLogo(trimmed: string): (r: Result<string, string>)
    ensures r == Err(LogoRequired) <==> trimmed == []
    ensures r.Ok? <==>
      && trimmed != [] && Text.StartsWith(trimmed, DataImagePrefix)
      && Text.IndexOf(trimmed, ',').Some? && Text.IndexOf(trimmed, ',').value + 1 < |trimmed|
    ensures r.Ok? ==> r.value == trimmed[Text.IndexOf(trimmed, ',').value + 1..] && r.value != []
    ensures r.Err? ==> r.error == LogoRequired || r.error == LogoInvalid
  {
    assert |LogoRequired| != |LogoInvalid|;
    if trimmed == [] then Err(LogoRequired)
    else
      match Text.IndexOf(trimmed, ',')
      case None => Err(LogoInvalid)
      case Some(comma) =>
        if !Text.StartsWith(trimmed, DataImagePrefix) then Err(LogoInvalid)
        else
          var base64 := trimmed[comma + 1..];
          if base64 == [] then Err(LogoInvalid) else Ok(base64)
  }

  /** The parser reads the trimmed text only. */
  lemma ParseSeesTrimmedText(a: string, b: string)
    requires Text.Trim(a) == Text.Trim(b)
    ensures ParseLogoBase64(Some(a)) == ParseLogoBase64(Some(b))
  {
    assert ParseLogoBase64(Some(a)) == ParseTrimmedLogo(Text.Trim(a));
    assert ParseLogoBase64(Some(b)) == ParseTrimmedLogo(Text.Trim(b));
  }

  /** `updateSystemUserLogo` before the user lookup: the parsed payload must
      decode to between 1 and 5 MB of bytes; the stored logo is the trimmed
      data URL. `decodedLength` is the length `Buffer.from(base64,
      "base64")` gives. */
  function CheckLogo(logo: Option<string>, decodedLength: string -> nat): (r: Result<string, string>)
    ensures r.Ok? <==>
      ParseLogoBase64(logo).Ok? && 0 < decodedLength(ParseLogoBase64(logo).value) <= MaxLogoBytes
    ensures r.Ok? ==> r.value == Text.Trim(logo.value)
    ensures ParseLogoBase64(logo).Ok? && decodedLength(ParseLogoBase64(logo).value) > MaxLogoBytes
        ==> r == Err(LogoTooLarge)
  {
    match ParseLogoBase64(logo)
    case Err(e) => Err(e)
    case Ok(base64) =>
      var size := decodedLength(base64);
      if size == 0 then Err(LogoInvalid)
      else if size > MaxLogoBytes then Err(LogoTooLarge)
      else Ok(Text.Trim(logo.value))
  }

  /** A well-formed data URL with no white space around it and a non-empty
      payload is parsed to exactly that payload. */
  lemma ParseLogoOfDataUrl(mediaType: string, payload: string)
    requires forall k :: 0 <= k < |mediaType| ==> mediaType[k] != ','
    requires payload != [] && !Text.IsSpace(payload[|payload| - 1])
    ensures ParseLogoBase64(Some(DataImagePrefix + mediaType + "," + payload)) == Ok(payload)
  {
    var url := DataImagePrefix + mediaType + "," + payload;
    var head := DataImagePrefix + mediaType;
    DataUrlShape(head, payload);
    FirstComma(head, payload);
    DataUrlParsed(url, |head|);
  }

  /** The parser on a trimmed text with the prefix and a first comma before
      a non-empty payload. */
  lemma DataUrlParsed(url: string, comma: nat)
    requires Text.IsTrimmed(url) && Text.StartsWith(url, DataImagePrefix)
    requires Text.IndexOf(url, ',') == Some(comma) && comma + 1 < |url|
    ensures ParseLogoBase64(Some(url)) == Ok(url[comma + 1..])
  {
    Text.TrimOfTrimmed(url);
    assert url != [];
    var r := ParseLogoBase64(Some(url));
    assert r.Ok?;
  }

  lemma DataUrlShape(head: string, payload: string)
    requires |head| >= |DataImagePrefix| && head[..|DataImagePrefix|] == DataImagePrefix
    requires payload != [] && !Text.IsSpace(payload[|payload| - 1])
    ensures var url := head + "," + payload;
      Text.IsTrimmed(url) && Text.StartsWith(url, DataImagePrefix) && url[|head| + 1..] == payload
  {
    var url := head + "," + payload;
    assert url[0] == head[0] == DataImagePrefix[0];
    assert url[|url| - 1] == payload[|payload| - 1];
    assert url[..|DataImagePrefix|] == head[..|DataImagePrefix|];
    assert url[|head| + 1..] == payload;
  }

  lemma FirstComma(head: string, payload: string)
    requires |head| >= |DataImagePrefix| && head[..|DataImagePrefix|] == DataImagePrefix
    requires forall k :: |DataImagePrefix| <= k < |head| ==> head[k] != ','
    ensures Text.IndexOf(head + "," + payload, ',') == Some(|head|)
  {
    var url := head + "," + payload;
    assert url[|head|] == ',';
    forall k | 0 <= k < |head|
      ensures url[k] != ','
    {
      assert url[k] == head[k];
      if k < |DataImagePrefix| {
        assert head[k] == DataImagePrefix[k];
        assert forall j :: 0 <= j < |DataImagePrefix| ==> DataImagePrefix[j] != ',';
      }
    }
  }

  // ---------------------------------------------------------------------
  // Token lifetime.

  /** The lifetime `issueToken` chooses from the two settings: minutes when
      `parseInt(JWT_EXPIRES_MINUTES)` is a positive number, otherwise days,
      `parseInt(JWT_EXPIRES_DAYS) || 14`. */
  datatype Lifetime = Minutes(count: int) | Days(count: int) {
    /** The `expiresIn` text handed to the signer. */
    function ExpiresIn(): string {
      match this
      case Minutes(m) => IntToDecimal(m) + "m"
      case Days(d) => IntToDecimal(d) + "d"
    }

    function Millis(): int {
      match this
      case Minutes(m) => m * 60 * 1000
      case Days(d) => d * 24 * 60 * 60 * 1000
    }
  }

  function TokenLifetime(minutesSetting: Option<string>, daysSetting: Option<string>): (l: Lifetime)
    ensures l.Minutes? <==> ParseInt(minutesSetting).Some? && ParseInt(minutesSetting).value > 0
    ensures l.Minutes? ==> l.count == ParseInt(minutesSetting).value
    ensures l.Days? ==> l.count == (if ParseInt(daysSetting).None? || ParseInt(daysSetting).value == 0 then 14
                                    else ParseInt(daysSetting).value)
  {
    var minutes := ParseInt(minutesSetting);
    if minutes.Some? && minutes.value > 0 then Minutes(minutes.value)
    else
      var days := ParseInt(daysSetting);
      Days(if days.Some? && days.value != 0 then days.value else 14)
  }

  /** `expiresAt`, in milliseconds since the epoch. */
  function ExpiresAt(now: int, minutesSetting: Option<string>, daysSetting: Option<string>): (t: int)
    ensures var l := TokenLifetime(minutesSetting, daysSetting);
      t == now + (if l.Minutes? then l.count * 60000 else l.count * 86400000)
  {
    now + TokenLifetime(minutesSetting, daysSetting).Millis()
  }

  /** How the signer reads an `expiresIn` text of the form `<int>m` or
      `<int>d`, in milliseconds. */
  function SpanMillis(expiresIn: string): Option<int> {
    if |expiresIn| < 2 then None
    else
      var unit := expiresIn[|expiresIn| - 1];
      match ParseInt(Some(expiresIn[..|expiresIn| - 1]))
      case None => None
      case Some(n) =>
        if unit == 'm' then Some(n * 60000)
        else if unit == 'd' then Some(n * 86400000)
        else None
  }

  /** The `expiresIn` given to the signer and the `expiresAt` reported to
      the client describe the same lifetime. */
  lemma ExpiresInAgreesWithExpiresAt(now: int, minutesSetting: Option<string>, daysSetting: Option<string>)
    ensures var l := TokenLifetime(minutesSetting, daysSetting);
      SpanMillis(l.ExpiresIn()) == Some(ExpiresAt(now, minutesSetting, daysSetting) - now)
  {
    var l := TokenLifetime(minutesSetting, daysSetting);
    SpanOfCount(l.count, if l.Minutes? then 'm' else 'd');
  }

  /** The signer reads `<count><unit>` back as that many units. */
  lemma SpanOfCount(count: int, unit: char)
    requires unit == 'm' || unit == 'd'
    ensures SpanMillis(IntToDecimal(count) + [unit]) == Some(count * (if unit == 'm' then 60000 else 86400000))
  {
    var text := IntToDecimal(count);
    var s := text + [unit];
    ParseIntRoundTrip(count);
    assert s[..|s| - 1] == text;
    assert s[|s| - 1] == unit;
  }

  /** Without a minutes setting and without a days setting the token lasts
      fourteen days. */
  lemma DefaultLifetime(now: int)
    ensures ExpiresAt(now, None, None) == now + 14 * 86400000
  {
  }

  // ---------------------------------------------------------------------
  // One-time codes.

  datatype Purpose = CreateSystemUser | ResetPassword {
    function Name(): string {
      match this
      case CreateSystemUser => "create_system_user"
      case ResetPassword => "reset_password"
    }
  }

  const OtpExpiryMinutes := 10
  const OtpExpiryMillis := OtpExpiryMinutes * 60 * 1000
  const OtpLow := 100000
  const OtpHigh := 1000000

  /** A stored code: the normalised address, the hash of the code, the
      purpose and the expiry instant (milliseconds). */
  datatype OtpRecord = OtpRecord(email: string, otpHash: string, purpose: Purpose, expiresAt: int)

  /** The address as the code collection stores and queries it: the schema
      lower-cases and trims it. */
  function NormalizeEmail(email: string): string {
    Text.Trim(Text.Lower(email))
  }

  /** The text of an issued code: `${randomInt(100000, 1000000)}`. */
  function OtpText(n: nat): (s: string)
    requires OtpLow <= n < OtpHigh
    ensures |s| == 6 && AllDigits(s) && s[0] != '0'
    ensures DecimalValue(s) == n
  {
    assert BackupFormat.Power10(5) == OtpLow;
    assert BackupFormat.Power10(6) == OtpHigh;
    DecimalLengthAtLeast(n, 6);
    BackupFormat.NatToDecimalLength(n, 6);
    DecimalRoundTrip(n);
    NatToDecimal(n)
  }

  lemma {:induction false} DecimalLengthAtLeast(n: nat, width: nat)
    requires width >= 1 && n >= BackupFormat.Power10(width - 1)
    ensures |NatToDecimal(n)| >= width
  {
    if width > 1 {
      var p := BackupFormat.Power10(width - 2);
      assert BackupFormat.Power10(width - 1) == 10 * p;
      assert n / 10 >= p;
      DecimalLengthAtLeast(n / 10, width - 1);
    }
  }

  /** The record `requestSystemUserOtp` and `requestPasswordResetOtp` store:
      the lower-cased address, normalised again by the schema, only the hash
      of the code, and an expiry ten minutes after issue. */
  function IssuedOtp(email: string, n: nat, purpose: Purpose, now: int, hash: string -> string): (r: OtpRecord)
    requires OtpLow <= n < OtpHigh
    ensures r.email == OtpKey(email) && r.purpose == purpose
    ensures r.otpHash == hash(OtpText(n)) && r.expiresAt == now + 600000
  {
    OtpRecord(OtpKey(email), hash(OtpText(n)), purpose, now + OtpExpiryMillis)
  }

  /** The address `createSystemUser`, `resetPassword` and the purge query
      with: `email.toLowerCase()`, to which the schema applies its own
      lower-casing and trimming. */
  function OtpKey(email: string): string {
    NormalizeEmail(Text.Lower(email))
  }

  /** Lower-casing before the query changes nothing: the key is the
      normalised address. */
  lemma OtpKeyIsNormalized(email: string)
    ensures OtpKey(email) == NormalizeEmail(email)
  {
    Text.LowerIdempotent(email);
  }

  predicate Matches(r: OtpRecord, key: string, purpose: Purpose, otpHash: string, now: int) {
    r.email == key && r.purpose == purpose && r.otpHash == otpHash && r.expiresAt > now
  }

  /** The lookup of `createSystemUser` and `resetPassword`: some record for
      the address and the purpose, with the hash of the given code, that has
      not expired. */
  predicate OtpAccepted(otps: seq<OtpRecord>, email: string, purpose: Purpose, otpHash: string, now: int) {
    AnyMatch(otps, OtpKey(email), purpose, otpHash, now)
  }

  predicate SameOwner(r: OtpRecord, key: string, purpose: Purpose) {
    r.email == key && r.purpose == purpose
  }

  /** `deleteMany({ email: email.toLowerCase(), purpose })`, given the key. */
  function PurgeOtps(otps: seq<OtpRecord>, key: string, purpose: Purpose): (r: seq<OtpRecord>)
    ensures forall k :: 0 <= k < |r| ==> !SameOwner(r[k], key, purpose)
    ensures forall k :: 0 <= k < |otps| && !SameOwner(otps[k], key, purpose) ==> otps[k] in r
    ensures forall x :: x in r ==> x in otps
  {
    if otps == [] then []
    else
      var rest := PurgeOtps(otps[1..], key, purpose);
      assert forall x :: x in otps[1..] ==> x in otps;
      if SameOwner(otps[0], key, purpose) then rest else [otps[0]] + rest
  }

  /** After the purge no code of that address and purpose is accepted any
      more, whatever its hash and whenever it is tried. */
  lemma PurgedCodesAreRefused(otps: seq<OtpRecord>, email: string, purpose: Purpose, otpHash: string, now: int)
    ensures !OtpAccepted(PurgeOtps(otps, OtpKey(email), purpose), email, purpose, otpHash, now)
  {
  }

  /** The purge keeps every code of another purpose: resetting the password
      leaves pending creation codes alone, and the other way round. */
  lemma PurgeKeepsOtherPurposes(otps: seq<OtpRecord>, email: string, purpose: Purpose,
                                other: Purpose, otpHash: string, now: int)
    requires other != purpose
    ensures OtpAccepted(PurgeOtps(otps, OtpKey(email), purpose), email, other, otpHash, now)
        <==> OtpAccepted(otps, email, other, otpHash, now)
  {
    PurgeKeepsMatches(otps, OtpKey(email), purpose, other, otpHash, now);
  }

  /** Some record of `otps` matches. */
  predicate AnyMatch(otps: seq<OtpRecord>, key: string, purpose: Purpose, otpHash: string, now: int) {
    exists k :: 0 <= k < |otps| && Matches(otps[k], key, purpose, otpHash, now)
  }

  /** `PurgeKeepsOtherPurposes` for a given key. */
  lemma PurgeKeepsMatches(otps: seq<OtpRecord>, key: string, purpose: Purpose,
                          other: Purpose, otpHash: string, now: int)
    requires other != purpose
    ensures AnyMatch(PurgeOtps(otps, key, purpose), key, other, otpHash, now)
        <==> AnyMatch(otps, key, other, otpHash, now)
  {
    var purged := PurgeOtps(otps, key, purpose);
    if AnyMatch(otps, key, other, otpHash, now) {
      var k :| 0 <= k < |otps| && Matches(otps[k], key, other, otpHash, now);
      assert otps[k] in purged;
      var j :| 0 <= j < |purged| && purged[j] == otps[k];
      assert Matches(purged[j], key, other, otpHash, now);
    }
    if AnyMatch(purged, key, other, otpHash, now) {
      var j :| 0 <= j < |purged| && Matches(purged[j], key, other, otpHash, now);
      assert purged[j] in otps;
      var k :| 0 <= k < |otps| && otps[k] == purged[j];
      assert Matches(otps[k], key, other, otpHash, now);
    }
  }

  /** A freshly issued code is accepted with its own text, for any address
      with the same key as the one it was issued to, until ten minutes have
      passed; afterwards it is refused unless an older code of the same
      address and purpose is still pending. */
  lemma IssuedCodeAccepted(otps: seq<OtpRecord>, email: string, other: string, n: nat, purpose: Purpose,
                           issuedAt: int, now: int, hash: string -> string)
    requires OtpLow <= n < OtpHigh && OtpKey(other) == OtpKey(email)
    requires forall k :: 0 <= k < |otps| ==> !SameOwner(otps[k], OtpKey(email), purpose)
    ensures var stored := otps + [IssuedOtp(email, n, purpose, issuedAt, hash)];
      OtpAccepted(stored, other, purpose, hash(OtpText(n)), now) <==> now < issuedAt + 600000
  {
    var r := IssuedOtp(email, n, purpose, issuedAt, hash);
    AppendedRecordMatches(otps, r, OtpKey(email), purpose, hash(OtpText(n)), now);
  }

  /** `IssuedCodeAccepted` for a given key and record. */
  lemma AppendedRecordMatches(otps: seq<OtpRecord>, r: OtpRecord, key: string, purpose: Purpose,
                              otpHash: string, now: int)
    requires r.email == key && r.purpose == purpose && r.otpHash == otpHash
    requires forall k :: 0 <= k < |otps| ==> !SameOwner(otps[k], key, purpose)
    ensures AnyMatch(otps + [r], key, purpose, otpHash, now) <==> now < r.expiresAt
  {
    var stored := otps + [r];
    if now < r.expiresAt {
      assert Matches(stored[|otps|], key, purpose, otpHash, now);
    } else {
      forall k | 0 <= k < |stored|
        ensures !Matches(stored[k], key, purpose, otpHash, now)
      {
        if k < |otps| {
          assert stored[k] == otps[k];
        }
      }
    }
  }

  /** The key ignores letter case: an address and its lower-cased form have
      the same key. */
  lemma OtpKeyIgnoresCase(email: string)
    ensures OtpKey(Text.Lower(email)) == OtpKey(email)
  {
    Text.LowerIdempotent(email);
  }
}
