/** Values of settings: integers of ten widths and booleans, kept as text and read back at any width. */
module SettingValues {
  import opened Options

  /** The integer types; Int and Uint are 64 bits wide. */
  datatype Width = Int | Int8 | Int16 | Int32 | Int64 | Uint | Uint8 | Uint16 | Uint32 | Uint64

  const TWO_7 := 0x80
  const TWO_15 := 0x8000
  const TWO_31 := 0x8000_0000
  const TWO_63 := 0x8000_0000_0000_0000

  predicate Signed(w: Width) { w.Int? || w.Int8? || w.Int16? || w.Int32? || w.Int64? }

  /** The number of values that are not negative in a signed type of this size. */
  function Half(w: Width): int {
    match w
    case Int8 | Uint8 => TWO_7
    case Int16 | Uint16 => TWO_15
    case Int32 | Uint32 => TWO_31
    case Int | Int64 | Uint | Uint64 => TWO_63
  }

  predicate Fits(n: int, w: Width) { if Signed(w) then -Half(w) <= n < Half(w) else 0 <= n < 2 * Half(w) }

  // ----- the library's conversions, in base 10 -----

  predicate IsDigit(c: char) { '0' <= c <= '9' }

  function FormatUint(n: nat): (s: string)
    ensures s != "" && forall i :: 0 <= i < |s| ==> IsDigit(s[i])
  {
    if n < 10 then [n as char + '0'] else FormatUint(n / 10) + [(n % 10) as char + '0']
  }

  function FormatInt(n: int): string { if n < 0 then "-" + FormatUint(-n) else FormatUint(n) }

  /** The number that the digits write; none if there is another character. */
  function Number(s: string): Option<nat> {
    if s == "" then Some(0)
    else
      var c := s[|s| - 1];
      match Number(s[..|s| - 1])
      case None => None
      case Some(n) => if IsDigit(c) then Some(10 * n + (c - '0') as nat) else None
  }

  /** strconv.ParseUint, for values below `limit`. */
  function ParseUint(s: string, limit: int): (r: Option<nat>)
    ensures r.Some? ==> r.value < limit
  {
    if s == "" then None
    else match Number(s)
      case None => None
      case Some(n) => if n < limit then Some(n) else None
  }

  /** strconv.ParseInt, for values from -half up to half. */
  function ParseInt(s: string, half: int): (r: Option<int>)
    requires half > 0
    ensures r.Some? ==> -half <= r.value < half
  {
    if s == "" then None
    else
      var signed := s[0] == '+' || s[0] == '-';
      match ParseUint(if signed then s[1..] else s, 2 * half)
      case None => None
      case Some(u) =>
        var n: int := u;
        if s[0] == '-' then (if n <= half then Some(-n) else None)
        else if n < half then Some(n) else None
  }

  function ParseBool(s: string): Option<bool> {
    if s in {"1", "t", "T", "true", "TRUE", "True"} then Some(true)
    else if s in {"0", "f", "F", "false", "FALSE", "False"} then Some(false)
    else None
  }

  // ----- values -----

  datatype Kind = OfString | OfBool | OfInt(width: Width) | OfTime | OfJson

  datatype Value = Value(raw: string, kind: Kind)

  function NewInt(n: int, w: Width): Value
    requires Fits(n, w)
  {
    Value(FormatInt(n), OfInt(w))
  }

  function NewBool(b: bool): Value { Value(if b then "true" else "false", OfBool) }

  /** The empty value counts as false. */
  function ReadBool(v: Value): Option<bool> { if v.raw == "" then Some(false) else ParseBool(v.raw) }

  /** Each reader takes a boolean first, and else the number, if it fits. */
  function Read(v: Value, w: Width): (r: Option<int>)
    ensures r.Some? ==> Fits(r.value, w)
  {
    match ReadBool(v)
    case Some(b) => Some(if b then 1 else 0)
    case None =>
      if Signed(w) then ParseInt(v.raw, Half(w))
      else match ParseUint(v.raw, 2 * Half(w)) case Some(n) => Some(n) case None => None
  }

  /** The text of a value that is an integer; none if the text is kept or made otherwise. */
  function IntegerText(v: Value): Option<string> {
    match ParseUint(v.raw, 2 * TWO_63)
    case Some(n) => Some(FormatUint(n))
    case None => match ParseInt(v.raw, TWO_63) case Some(n) => Some(FormatInt(n)) case None => None
  }

  // ----- laws -----

  lemma {:induction false} NumberOfFormat(n: nat)
    ensures Number(FormatUint(n)) == Some(n)
  {
    var s := FormatUint(n);
    if n < 10 {
      assert s[..|s| - 1] == "";
    } else {
      NumberOfFormat(n / 10);
      assert s[..|s| - 1] == FormatUint(n / 10);
    }
  }

  lemma {:induction false} SignIsNoNumber(s: string)
    requires s != "" && !IsDigit(s[0])
    ensures Number(s).None?
  {
    if |s| <= 1 {
    } else {
      SignIsNoNumber(s[..|s| - 1]);
    }
  }

  lemma ParseOfFormat(n: int, half: int)
    requires half > 0
    ensures ParseInt(FormatInt(n), half) == if -half <= n < half then Some(n) else None
    ensures ParseUint(FormatInt(n), 2 * half) == if 0 <= n < 2 * half then Some(n) else None
  {
    var s := FormatInt(n);
    if n < 0 {
      NumberOfFormat(-n);
      assert s[1..] == FormatUint(-n);
      SignIsNoNumber(s);
    } else {
      NumberOfFormat(n);
    }
  }

  /** The widths are those of Go's integer types. */
  lemma WidthsAre(n: int)
    ensures (Fits(n, Int8) <==> -128 <= n <= 127) && (Fits(n, Uint8) <==> 0 <= n <= 255)
    ensures (Fits(n, Int16) <==> -32768 <= n <= 32767) && (Fits(n, Uint16) <==> 0 <= n <= 65535)
    ensures (Fits(n, Int32) <==> -2147483648 <= n <= 2147483647) && (Fits(n, Uint32) <==> 0 <= n <= 4294967295)
    ensures (Fits(n, Int64) <==> -9223372036854775808 <= n <= 9223372036854775807)
    ensures (Fits(n, Uint64) <==> 0 <= n <= 18446744073709551615)
    ensures (Fits(n, Int) <==> Fits(n, Int64)) && (Fits(n, Uint) <==> Fits(n, Uint64))
  {
  }

  lemma FormatIsInjective(m: int, n: int)
    ensures FormatInt(m) == FormatInt(n) <==> m == n
  {
    var half := if m < 0 then (if n < 0 then 1 - m - n else 1 - m + n) else if n < 0 then 1 + m - n else 1 + m + n;
    ParseOfFormat(m, half);
    ParseOfFormat(n, half);
  }

  /** Of all numbers, only 0 and 1 are taken for booleans. */
  lemma BooleanIffZeroOrOne(n: int)
    ensures ParseBool(FormatInt(n)) == if n == 0 then Some(false) else if n == 1 then Some(true) else None
  {
    var s := FormatInt(n);
    if ParseBool(s).Some? {
      assert s[0] == FormatInt(n)[0];
      assert n >= 0 ==> IsDigit(s[0]);
      assert s == FormatInt(1) || s == FormatInt(0);
      FormatIsInjective(n, 1);
      FormatIsInjective(n, 0);
    } else {
      assert FormatInt(0) == "0" && FormatInt(1) == "1";
    }
  }

  /** Whatever width an integer was saved from, a reader of width `to` returns it exactly if it fits. */
  lemma ReadReturnsIffFits(n: int, from: Width, to: Width)
    requires Fits(n, from)
    ensures Read(NewInt(n, from), to) == if Fits(n, to) then Some(n) else None
  {
    BooleanIffZeroOrOne(n);
    ParseOfFormat(n, Half(to));
  }

  lemma StringIsDecimal(n: int, w: Width)
    requires Fits(n, w)
    ensures IntegerText(NewInt(n, w)) == Some(FormatInt(n))
  {
    ParseOfFormat(n, TWO_63);
  }

  lemma BoolsReadBack(b: bool, w: Width)
    ensures ReadBool(NewBool(b)) == Some(b) && Read(NewBool(b), w) == Some(if b then 1 else 0)
    ensures IntegerText(NewBool(b)).None?
  {
    SignIsNoNumber(NewBool(b).raw);
  }

  lemma IntReadsAsBoolIff(n: int, w: Width)
    requires Fits(n, w)
    ensures ReadBool(NewInt(n, w)).Some? <==> n == 0 || n == 1
    ensures ReadBool(NewInt(n, w)).Some? ==> Some(if ReadBool(NewInt(n, w)).value then 1 else 0) == Some(n)
  {
    BooleanIffZeroOrOne(n);
  }

  /** On any text at all, a wider reader of the same signedness returns what a narrower one returns. */
  lemma WiderReadersAgree(v: Value, narrow: Width, wide: Width)
    requires Signed(narrow) == Signed(wide) && Half(narrow) <= Half(wide) && Read(v, narrow).Some?
    ensures Read(v, wide) == Read(v, narrow)
  {
  }

  /** Text that is an integer in another spelling, as "+7" or "007", is read the same after String has normalised it. */
  lemma StringKeepsTheNumber(v: Value, kind: Kind)
    requires ParseInt(v.raw, TWO_63).Some?
    ensures IntegerText(v).Some?
    ensures Read(Value(IntegerText(v).value, kind), Int) == Read(v, Int) == ParseInt(v.raw, TWO_63)
  {
    var n := ParseInt(v.raw, TWO_63).value;
    if v.raw[0] == '+' || v.raw[0] == '-' { SignIsNoNumber(v.raw); }
    BooleanIffZeroOrOne(n);
    ParseOfFormat(n, TWO_63);
    assert IntegerText(v) == Some(FormatInt(n));
    if ParseBool(v.raw).Some? { OneAndZero(v.raw); }
  }

  /** A text that is a boolean and a number is "1" or "0". */
  lemma OneAndZero(s: string)
    requires ParseInt(s, TWO_63).Some? && ParseBool(s).Some?
    ensures s == (if ParseBool(s).value then "1" else "0") && ParseInt(s, TWO_63) == Some(if ParseBool(s).value then 1 else 0)
  {
    if !IsDigit(s[0]) && s[0] != '+' && s[0] != '-' { SignIsNoNumber(s); }
    assert Number("1") == Some(1) && Number("0") == Some(0) by { assert "1"[..0] == "" && "0"[..0] == ""; }
  }
}
