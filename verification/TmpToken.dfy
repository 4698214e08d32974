/** The plain text of the OAuth tmp_token: seven fields and a timestamp joined by '|'. */
module TmpToken {
  import opened Options
  import opened Money
  import opened RmbCodec

  const TTL_MICROS: int := 15 * 60 * 1_000_000
  const SKEW_MICROS: int := 2 * 60 * 1_000_000

  datatype Fields = Fields(
    provider: string,
    externalId: string,
    username: string,
    refUser: string,
    email: string,
    verified: bool)

  datatype TokenError = Broken | UnknownType | BadTimestamp | Expired | FromTheFuture

  datatype Parsed = Parsed(tokenType: string, refUser: string) | Rejected(error: TokenError)

  // --- Building --------------------------------------------------------------------------

  /** strings.ReplaceAll(s, "|", ""). */
  function Sanitize(s: string): string {
    if s == "" then ""
    else (if s[0] == '|' then "" else [s[0]]) + Sanitize(s[1..])
  }

  function PrintInt(n: int): string {
    if n < 0 then "-" + Decimal(-n) else Decimal(n)
  }

  function Clean(f: Fields): Fields {
    Fields(Sanitize(f.provider), Sanitize(f.externalId), Sanitize(f.username), Sanitize(f.refUser), Sanitize(f.email),
           f.verified)
  }

  function Join(parts: seq<string>): string
    requires parts != []
  {
    if |parts| == 1 then parts[0] else parts[0] + "|" + Join(parts[1..])
  }

  /** The parts after the type, the text fields sanitised. */
  function Tail(f: Fields, timestamp: int): (parts: seq<string>)
    ensures |parts| == 7
  {
    [Sanitize(f.provider), Sanitize(f.externalId), Sanitize(f.username), Sanitize(f.refUser), Sanitize(f.email),
     if f.verified then "1" else "0", PrintInt(timestamp)]
  }

  /** The type is written as it is. */
  function Build(tokenType: string, f: Fields, timestamp: int): string {
    Join([tokenType] + Tail(f, timestamp))
  }

  // --- Parsing -----------------------------------------------------------------------------

  /** strings.Split(s, "|"). */
  function Split(s: string): (parts: seq<string>)
    ensures |parts| >= 1
  {
    if s == "" then [""]
    else
      var rest := Split(s[1..]);
      if s[0] == '|' then [""] + rest else [[s[0]] + rest[0]] + rest[1..]
  }

  /** strconv.ParseInt(s, 10, 64). */
  function ParseInt(s: string): Option<int> {
    var signed := s != "" && (s[0] == '-' || s[0] == '+');
    var digits := if signed then s[1..] else s;
    if digits == "" || !AllDigits(digits) then None
    else
      var n := if signed && s[0] == '-' then -Value(digits) else Value(digits);
      if IsInt64(n) then Some(n) else None
  }

  /** parseTmpToken, from the decrypted text on: six or more parts, the timestamp last. */
  function Parse(text: string, nowMicros: int): Parsed {
    var parts := Split(text);
    if text == "" || |parts| < 6 then Rejected(Broken)
    else if parts[0] != "clean" && parts[0] != "sms" then Rejected(UnknownType)
    else
      match ParseInt(parts[|parts| - 1])
      case None => Rejected(BadTimestamp)
      case Some(timestamp) =>
        var age := nowMicros - timestamp * 1_000_000;
        if age > TTL_MICROS then Rejected(Expired)
        else if age < -SKEW_MICROS then Rejected(FromTheFuture)
        else Parsed(parts[0], parts[4])
  }

  /** parseOAuthTmpTokenParts: the older six-part text has no email. */
  function ParseFields(text: string): Fields {
    var parts := Split(text);
    if |parts| < 6 then Fields("", "", "", "", "", false)
    else
      Fields(parts[1], parts[2], parts[3], parts[4],
             if |parts| >= 8 then parts[5] else "",
             |parts| >= 8 && parts[6] == "1")
  }

  // --- Proofs --------------------------------------------------------------------------------

  predicate BarFree(s: string) {
    forall i :: 0 <= i < |s| ==> s[i] != '|'
  }

  /** Sanitising removes the bars and nothing else: it is the identity exactly on bar-free text. */
  lemma {:induction false} SanitizeBarFree(s: string)
    ensures BarFree(Sanitize(s)) && |Sanitize(s)| <= |s|
    ensures Sanitize(s) == s <==> BarFree(s)
  {
    if s != "" {
      SanitizeBarFree(s[1..]);
      if s[0] != '|' && BarFree(s[1..]) {
        assert s == [s[0]] + s[1..];
      } else if s[0] != '|' {
        assert Sanitize(s)[1..] == Sanitize(s[1..]);
      }
    }
  }

  lemma {:induction false} SplitBarFree(a: string)
    requires BarFree(a)
    ensures Split(a) == [a]
  {
    if a != "" {
      SplitBarFree(a[1..]);
      assert [a[0]] + a[1..] == a;
    }
  }

  lemma {:induction false} SplitField(a: string, b: string)
    requires BarFree(a)
    ensures Split(a + "|" + b) == [a] + Split(b)
  {
    var s := a + "|" + b;
    if a == "" {
      assert s[1..] == b;
    } else {
      assert s[1..] == a[1..] + "|" + b;
      SplitField(a[1..], b);
      assert [a[0]] + a[1..] == a;
    }
  }

  function Bars(s: string): nat {
    if s == "" then 0 else (if s[0] == '|' then 1 else 0) + Bars(s[1..])
  }

  lemma {:induction false} SplitCount(s: string)
    ensures |Split(s)| == Bars(s) + 1
  {
    if s != "" {
      SplitCount(s[1..]);
    }
  }

  lemma {:induction false} BarsAppend(a: string, b: string)
    ensures Bars(a + b) == Bars(a) + Bars(b)
  {
    if a == "" {
      assert a + b == b;
    } else {
      assert (a + b)[1..] == a[1..] + b;
      BarsAppend(a[1..], b);
    }
  }

  lemma {:induction false} NoBars(s: string)
    ensures Bars(s) == 0 <==> BarFree(s)
  {
    if s != "" {
      NoBars(s[1..]);
      assert BarFree(s) <==> s[0] != '|' && BarFree(s[1..]);
    }
  }

  lemma DigitsBarFree(s: string)
    requires AllDigits(s)
    ensures BarFree(s)
  {
  }

  /** The timestamp survives printing and parsing, and its text has no bar. */
  lemma TimestampRoundTrip(n: int)
    ensures BarFree(PrintInt(n))
    ensures IsInt64(n) ==> ParseInt(PrintInt(n)) == Some(n)
  {
    if n < 0 {
      DigitsBarFree(Decimal(-n));
      assert PrintInt(n)[1..] == Decimal(-n);
    } else {
      DigitsBarFree(Decimal(n));
      assert IsDigit(Decimal(n)[0]);
    }
  }

  /** Splitting inverts joining on bar-free parts. */
  lemma {:induction false} SplitJoin(parts: seq<string>)
    requires parts != [] && forall i :: 0 <= i < |parts| ==> BarFree(parts[i])
    ensures Split(Join(parts)) == parts
  {
    if |parts| == 1 {
      SplitBarFree(parts[0]);
    } else {
      SplitJoin(parts[1..]);
      SplitField(parts[0], Join(parts[1..]));
    }
  }

  lemma FlagBarFree(verified: bool)
    ensures BarFree(if verified then "1" else "0")
  {
  }

  /** The eight parts of a payload, whatever the fields contain, as long as the type has no bar. */
  lemma PayloadParts(tokenType: string, f: Fields, timestamp: int)
    requires BarFree(tokenType)
    ensures var c := Clean(f);
            Split(Build(tokenType, f, timestamp)) ==
            [tokenType, c.provider, c.externalId, c.username, c.refUser, c.email, if f.verified then "1" else "0",
             PrintInt(timestamp)]
  {
    hide Sanitize, Split, Join, PrintInt, BarFree;
    FlagBarFree(f.verified);
    SanitizeBarFree(f.provider);
    SanitizeBarFree(f.externalId);
    SanitizeBarFree(f.username);
    SanitizeBarFree(f.refUser);
    SanitizeBarFree(f.email);
    TimestampRoundTrip(timestamp);
    SplitJoin([tokenType] + Tail(f, timestamp));
  }

  /** A payload has exactly eight parts if and only if its type, which is not sanitised, has no bar. */
  lemma PartsCount(tokenType: string, f: Fields, timestamp: int)
    ensures |Split(Build(tokenType, f, timestamp))| == 8 + Bars(tokenType)
    ensures |Split(Build(tokenType, f, timestamp))| == 8 <==> BarFree(tokenType)
  {
    hide Split, Sanitize, PrintInt, Bars, BarFree;
    var rest := Tail(f, timestamp);
    var tail := "|" + Join(rest);
    EmptyBarFree();
    PayloadParts("", f, timestamp);
    assert ([""] + rest)[1..] == rest && ([tokenType] + rest)[1..] == rest;
    assert Build("", f, timestamp) == tail;
    assert Build(tokenType, f, timestamp) == tokenType + tail;
    SplitCount(tail);
    BarsAppend(tokenType, tail);
    SplitCount(Build(tokenType, f, timestamp));
    NoBars(tokenType);
  }

  lemma EmptyBarFree()
    ensures BarFree("")
  {
  }

  lemma EmptySplit()
    ensures Split("") == [""]
  {
  }

  /** Parsing a payload of either known type gives back the type and every field with only the
      bars removed, while the token is neither expired nor from the future. */
  lemma TokenRoundTrip(tokenType: string, f: Fields, timestamp: int, nowMicros: int)
    requires tokenType == "clean" || tokenType == "sms"
    requires IsInt64(timestamp)
    ensures ParseFields(Build(tokenType, f, timestamp)) == Clean(f)
    ensures Parse(Build(tokenType, f, timestamp), nowMicros) ==
            if nowMicros - timestamp * 1_000_000 > TTL_MICROS then Rejected(Expired)
            else if nowMicros - timestamp * 1_000_000 < -SKEW_MICROS then Rejected(FromTheFuture)
            else Parsed(tokenType, Clean(f).refUser)
  {
    hide Split, Sanitize, Join, PrintInt, ParseInt, Tail;
    EmptySplit();
    PayloadParts(tokenType, f, timestamp);
    TimestampRoundTrip(timestamp);
  }

  /** On bar-free fields nothing is lost, so different fields make different payloads. */
  lemma PayloadInjective(f: Fields, g: Fields, tokenType: string, tokenType': string, t: int, t': int)
    requires f == Clean(f) && g == Clean(g) && BarFree(tokenType) && BarFree(tokenType') && IsInt64(t) && IsInt64(t')
    requires Build(tokenType, f, t) == Build(tokenType', g, t')
    ensures f == g && tokenType == tokenType' && t == t'
  {
    PayloadParts(tokenType, f, t);
    PayloadParts(tokenType', g, t');
    TimestampRoundTrip(t);
    TimestampRoundTrip(t');
    assert Split(Build(tokenType, f, t))[7] == PrintInt(t);
    assert Split(Build(tokenType', g, t'))[7] == PrintInt(t');
    assert Split(Build(tokenType, f, t))[6] == Split(Build(tokenType', g, t'))[6];
    assert Split(Build(tokenType, f, t))[5] == Split(Build(tokenType', g, t'))[5];
    assert Split(Build(tokenType, f, t))[4] == Split(Build(tokenType', g, t'))[4];
    assert Split(Build(tokenType, f, t))[3] == Split(Build(tokenType', g, t'))[3];
    assert Split(Build(tokenType, f, t))[2] == Split(Build(tokenType', g, t'))[2];
    assert Split(Build(tokenType, f, t))[1] == Split(Build(tokenType', g, t'))[1];
    assert Split(Build(tokenType, f, t))[0] == Split(Build(tokenType', g, t'))[0];
  }

  // --- Every other text ----------------------------------------------------------------------------

  /** s writes n with the digits d and at most one sign. */
  predicate WritesInt(s: string, d: string, n: int) {
    && d != "" && AllDigits(d)
    && (|| (s == d && n == Value(d)) || (s == "+" + d && n == Value(d)) || (s == "-" + d && n == -Value(d)))
  }

  /** A timestamp text is an optional sign and at least one digit, within int64; nothing else is. */
  lemma IntExactly(s: string, n: int)
    ensures ParseInt(s) == Some(n) <==>
            MIN_INT64 <= n <= MAX_INT64 && exists d: string :: WritesInt(s, d, n)
  {
    hide Value;
    if ParseInt(s) == Some(n) {
      var d := if s[0] == '-' || s[0] == '+' then s[1..] else s;
      assert s == d || s == [s[0]] + d;
      assert WritesInt(s, d, n);
    }
    if d: string :| WritesInt(s, d, n) {
      WrittenParses(s, d, n);
    }
  }

  lemma WrittenParses(s: string, d: string, n: int)
    requires WritesInt(s, d, n)
    ensures ParseInt(s) == if IsInt64(n) then Some(n) else None
  {
    hide Value;
    assert IsDigit(d[0]);
    assert ("+" + d)[1..] == d && ("-" + d)[1..] == d;
  }

  /** What parsing makes of any text, by the parts between its bars: fewer than six are broken, the type
      is checked before the timestamp, which is the last part, and the age comes last. The email and the
      flag are there from eight parts on. */
  lemma ParseExactly(parts: seq<string>, nowMicros: int)
    requires parts != [] && forall i :: 0 <= i < |parts| ==> BarFree(parts[i])
    ensures var stamp := ParseInt(parts[|parts| - 1]);
            Parse(Join(parts), nowMicros)
            == if |parts| < 6 then Rejected(Broken)
               else if parts[0] !in {"clean", "sms"} then Rejected(UnknownType)
               else if stamp.None? then Rejected(BadTimestamp)
               else if nowMicros > stamp.value * 1_000_000 + 900_000_000 then Rejected(Expired)
               else if nowMicros + 120_000_000 < stamp.value * 1_000_000 then Rejected(FromTheFuture)
               else Parsed(parts[0], parts[4])
    ensures ParseFields(Join(parts))
            == if |parts| < 6 then Fields("", "", "", "", "", false)
               else if |parts| < 8 then Fields(parts[1], parts[2], parts[3], parts[4], "", false)
               else Fields(parts[1], parts[2], parts[3], parts[4], parts[5], parts[6] == "1")
  {
    hide Split, Join, ParseInt, BarFree;
    EmptySplit();
    SplitJoin(parts);
  }

  /** A printed number has a sign exactly if it is negative and no leading zero. */
  lemma PrintedPlainly(n: int)
    ensures PrintInt(n) != "" && (PrintInt(n)[0] == '-' <==> n < 0)
    ensures n >= 0 ==> AllDigits(PrintInt(n)) && Value(PrintInt(n)) == n
    ensures n < 0 ==> AllDigits(PrintInt(n)[1..]) && Value(PrintInt(n)[1..]) == -n
    ensures (n > 0 ==> PrintInt(n)[0] != '0') && (n < 0 ==> PrintInt(n)[1] != '0')
  {
    if n < 0 {
      NoLeadingZero(-n);
      assert PrintInt(n)[1..] == Decimal(-n);
    } else {
      NoLeadingZero(n);
      assert IsDigit(Decimal(n)[0]);
    }
  }

  lemma {:induction false} NoLeadingZero(n: nat)
    ensures n > 0 ==> Decimal(n)[0] != '0'
  {
    if n >= 10 {
      NoLeadingZero(n / 10);
    } else if n > 0 {
      assert DigitValue(Decimal(n)[0]) == n;
    }
  }
}
