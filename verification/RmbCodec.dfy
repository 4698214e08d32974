/** RMB amounts as decimal strings: the strict parser that callback amounts go through and the
    two-decimal printer. */
module RmbCodec {
  import opened Options
  import opened Money

  // --- Decimal digits ----------------------------------------------------------------------

  predicate IsDigit(c: char) {
    '0' <= c <= '9'
  }

  predicate AllDigits(s: string) {
    forall i :: 0 <= i < |s| ==> IsDigit(s[i])
  }

  function DigitValue(c: char): (v: int)
    requires IsDigit(c)
    ensures 0 <= v <= 9
  {
    c as int - '0' as int
  }

  function DigitChar(v: int): (c: char)
    requires 0 <= v <= 9
    ensures IsDigit(c) && DigitValue(c) == v
  {
    ('0' as int + v) as char
  }

  /** The number a digit string writes in base ten. */
  function Value(s: string): (v: int)
    requires AllDigits(s)
    ensures v >= 0
  {
    if s == "" then 0 else Value(s[..|s| - 1]) * 10 + DigitValue(s[|s| - 1])
  }

  /** Base-ten digits without leading zeros; "0" for zero. */
  function Decimal(n: nat): (s: string)
    ensures |s| > 0 && AllDigits(s) && Value(s) == n
  {
    if n < 10 then
      var s := [DigitChar(n)];
      assert s[..0] == "";
      s
    else
      var s := Decimal(n / 10) + [DigitChar(n % 10)];
      assert s[..|s| - 1] == Decimal(n / 10);
      s
  }

  lemma ValueSnoc(s: string, c: char)
    requires AllDigits(s) && IsDigit(c)
    ensures AllDigits(s + [c]) && Value(s + [c]) == Value(s) * 10 + DigitValue(c)
  {
    assert (s + [c])[..|s|] == s;
  }

  // --- What an amount string means -----------------------------------------------------------

  /** White space as Unicode's White_Space property has it. */
  predicate IsSpace(c: char) {
    var n := c as int;
    || 0x09 <= n <= 0x0D || n == 0x20 || n == 0x85 || n == 0xA0 || n == 0x1680
    || 0x2000 <= n <= 0x200A || n == 0x2028 || n == 0x2029 || n == 0x202F || n == 0x205F || n == 0x3000
  }

  function TrimLeft(s: string): string {
    if s != "" && IsSpace(s[0]) then TrimLeft(s[1..]) else s
  }

  function TrimRight(s: string): string {
    if s != "" && IsSpace(s[|s| - 1]) then TrimRight(s[..|s| - 1]) else s
  }

  function Trim(s: string): string {
    TrimRight(TrimLeft(s))
  }

  /** t is digits up to dot and then, unless it ends there, a point and one or two digits;
      it writes this many fen. */
  predicate DenotesAt(t: string, dot: nat, fen: int) {
    && 0 < dot <= |t| && AllDigits(t[..dot])
    && if dot == |t| then fen == 100 * Value(t[..dot])
       else
         && t[dot] == '.' && 1 <= |t| - dot - 1 <= 2 && AllDigits(t[dot + 1..])
         && fen == 100 * Value(t[..dot]) + (if |t| - dot - 1 == 1 then 10 else 1) * Value(t[dot + 1..])
  }

  ghost predicate Denotes(t: string, fen: int) {
    exists dot: nat :: DenotesAt(t, dot, fen)
  }

  lemma DigitsBefore(t: string, dot: nat, fen: int)
    requires DenotesAt(t, dot, fen)
    ensures forall i :: 0 <= i < dot ==> IsDigit(t[i])
    ensures dot < |t| ==> !IsDigit(t[dot])
  {
    forall i | 0 <= i < dot ensures IsDigit(t[i]) {
      assert IsDigit(t[..dot][i]);
    }
  }

  /** A string means at most one amount. */
  lemma DenotesUnique(t: string, fen: int, fen': int)
    requires Denotes(t, fen) && Denotes(t, fen')
    ensures fen == fen' && fen >= 0
  {
    var i: nat :| DenotesAt(t, i, fen);
    var j: nat :| DenotesAt(t, j, fen');
    DigitsBefore(t, i, fen);
    DigitsBefore(t, j, fen');
    assert i == j;
  }

  /** The point can only be where the first '.' is. */
  lemma DotIsFirst(t: string, dot: nat, at: nat, fen: int)
    requires DenotesAt(t, at, fen)
    requires dot <= |t| && (forall i :: 0 <= i < dot ==> t[i] != '.') && (dot < |t| ==> t[dot] == '.')
    ensures at == dot
  {
    DigitsBefore(t, at, fen);
  }

  // --- The parser ------------------------------------------------------------------------------

  /** strings.Index(s, "."), or the length where there is none. */
  method IndexOfPoint(s: string) returns (dot: nat)
    ensures dot <= |s| && (forall i :: 0 <= i < dot ==> s[i] != '.') && (dot < |s| ==> s[dot] == '.')
  {
    dot := 0;
    while dot < |s| && s[dot] != '.'
      invariant dot <= |s| && forall i :: 0 <= i < dot ==> s[i] != '.'
    {
      dot := dot + 1;
    }
  }

  method CheckDigits(s: string) returns (ok: bool)
    ensures ok == AllDigits(s)
  {
    for i := 0 to |s|
      invariant AllDigits(s[..i])
    {
      if s[i] < '0' || s[i] > '9' {
        return false;
      }
    }
    return true;
  }

  /** strconv.ParseInt(s, 10, 64) on a string of digits. */
  function ParseInt64(s: string): Option<int>
    requires AllDigits(s)
  {
    if Value(s) <= MAX_INT64 then Some(Value(s)) else None
  }

  /** Padding the fraction to two digits and parsing integer and fraction as one number. */
  method Combine(intPart: string, fracPart: string) returns (v: Option<int>)
    requires AllDigits(intPart) && AllDigits(fracPart) && |fracPart| <= 2
    ensures var fen := 100 * Value(intPart) + (if |fracPart| == 1 then 10 else 1) * Value(fracPart);
            v == if fen <= MAX_INT64 then Some(fen) else None
  {
    ghost var scaled := (if |fracPart| == 1 then 10 else 1) * Value(fracPart);
    var padded := fracPart;
    while |padded| < 2
      invariant |fracPart| <= |padded| <= 2 && AllDigits(padded)
      invariant |fracPart| >= 1 ==> Value(padded) == (if |padded| > |fracPart| then 10 else 1) * Value(fracPart)
      invariant |fracPart| == 0 ==> Value(padded) == 0
      decreases 2 - |padded|
    {
      ValueSnoc(padded, '0');
      padded := padded + "0";
    }
    assert padded == [padded[0]] + [padded[1]];
    ValueSnoc([padded[0]], padded[1]);
    ValueSnoc(intPart, padded[0]);
    ValueSnoc(intPart + [padded[0]], padded[1]);
    assert [padded[0]][..0] == "";
    assert intPart + padded == intPart + [padded[0]] + [padded[1]];
    v := ParseInt64(intPart + padded);
  }

  /** Accepts exactly the trimmed strings that denote an amount within int64, and returns it. */
  method ParseRmbToFen(raw: string) returns (fen: Option<int>)
    ensures fen.Some? ==> Denotes(Trim(raw), fen.value) && 0 <= fen.value <= MAX_INT64
    ensures fen.None? ==> forall v :: Denotes(Trim(raw), v) ==> v > MAX_INT64
  {
    var s := Trim(raw);
    if s == "" || s[0] == '-' {
      return None;
    }
    var intPart, fracPart := s, "";
    var dot := IndexOfPoint(s);
    forall v, at: nat | DenotesAt(s, at, v) ensures at == dot {
      DotIsFirst(s, dot, at, v);
    }
    if dot < |s| {
      intPart, fracPart := s[..dot], s[dot + 1..];
      var second := IndexOfPoint(fracPart);
      if second < |fracPart| {
        return None;
      }
      if fracPart == "" {
        return None;
      }
    }
    assert intPart == s[..dot];
    if intPart == "" {
      return None;
    }
    var intOk := CheckDigits(intPart);
    if !intOk {
      return None;
    }
    if |fracPart| > 2 {
      return None;
    }
    var fracOk := CheckDigits(fracPart);
    if !fracOk {
      return None;
    }
    fen := Combine(intPart, fracPart);
    ghost var meant := 100 * Value(intPart) + (if |fracPart| == 1 then 10 else 1) * Value(fracPart);
    assert DenotesAt(s, dot, meant);
    forall v | Denotes(s, v) ensures v == meant {
      DenotesUnique(s, v, meant);
    }
  }

  // --- The printer -------------------------------------------------------------------------------

  /** "%d.%02d" on a non-negative amount. */
  function FormatAbs(fen: nat): string {
    var frac := fen % 100;
    Decimal(fen / 100) + "." + [DigitChar(frac / 10), DigitChar(frac % 10)]
  }

  /** FormatFen; the program writes the smallest int64 as a literal, which is the same text. */
  function FormatFen(fen: int): string {
    if fen < 0 then "-" + FormatAbs(-fen) else FormatAbs(fen)
  }

  lemma TrimKeeps(s: string)
    requires s != "" && !IsSpace(s[0]) && !IsSpace(s[|s| - 1])
    ensures Trim(s) == s
  {
  }

  lemma DigitIsNoSpace(c: char)
    requires IsDigit(c)
    ensures !IsSpace(c)
  {
  }

  lemma PrintedDigits(fen: nat, v: int)
    ensures Denotes(Trim(FormatAbs(fen)), v) <==> v == fen
    ensures FormatAbs(fen) != "" && !IsSpace(FormatAbs(fen)[|FormatAbs(fen)| - 1])
  {
    hide Decimal, DigitChar, IsSpace;
    var whole := Decimal(fen / 100);
    var tens, ones := DigitChar(fen % 100 / 10), DigitChar(fen % 100 % 10);
    var t := FormatAbs(fen);
    DigitIsNoSpace(whole[0]);
    DigitIsNoSpace(ones);
    TrimKeeps(t);
    assert t[..|whole|] == whole && t[|whole| + 1..] == [tens, ones];
    ValueSnoc([tens], ones);
    assert [tens][..0] == "" && [tens] + [ones] == [tens, ones];
    assert DenotesAt(t, |whole|, fen);
    if Denotes(t, v) {
      DenotesUnique(t, v, fen);
    }
  }

  /** A minus sign denotes nothing. */
  lemma SignedDenotesNothing(t: string, v: int)
    requires t != "" && t[0] == '-'
    ensures !Denotes(t, v)
  {
    forall dot: nat | DenotesAt(t, dot, v) ensures false {
      DigitsBefore(t, dot, v);
    }
  }

  /** What is printed is read back as the same amount and as nothing else if it is not negative;
      a negative amount prints as a text that denotes nothing. */
  lemma PrintedDenotes(fen: int, v: int)
    ensures Denotes(Trim(FormatFen(fen)), v) <==> fen >= 0 && v == fen
  {
    hide FormatAbs;
    if fen >= 0 {
      PrintedDigits(fen, v);
    } else {
      PrintedDigits(-fen, v);
      var t := FormatFen(fen);
      assert t[|t| - 1] == FormatAbs(-fen)[|FormatAbs(-fen)| - 1];
      TrimKeeps(t);
      SignedDenotesNothing(t, v);
    }
  }

  /** So the parser inverts the printer on every non-negative int64 and refuses the others. */
  method RoundTrip(fen: int) returns (back: Option<int>)
    requires IsInt64(fen)
    ensures back == if fen >= 0 then Some(fen) else None
  {
    back := ParseRmbToFen(FormatFen(fen));
    PrintedDenotes(fen, fen);
    if back.Some? {
      PrintedDenotes(fen, back.value);
    }
  }
}
