/** The amount parser of popctl: "1ether", "0.5gwei", "1000000000" become a number of wei. Strings
    are ASCII; TrimSpace, ToLower, Split and big.Int.SetString are the functions of that name in
    Go's libraries. */
module ParseValue {
  import opened Decimals
  import opened Wrappers

  /* ---------- Library functions ---------- */

  predicate IsSpace(c: char) { c == ' ' || '\t' as int <= c as int <= '\r' as int }

  predicate AllSpace(s: string) {
    forall i :: 0 <= i < |s| ==> IsSpace(s[i])
  }

  function TrimLeft(s: string): string {
    if s != [] && IsSpace(s[0]) then TrimLeft(s[1..]) else s
  }

  function TrimRight(s: string): string {
    if s != [] && IsSpace(s[|s| - 1]) then TrimRight(s[..|s| - 1]) else s
  }

  function TrimSpace(s: string): string {
    TrimRight(TrimLeft(s))
  }

  function LowerChar(c: char): char {
    if 'A' <= c <= 'Z' then (c as int + 32) as char else c
  }

  function ToLower(s: string): (r: string)
    ensures |r| == |s|
    ensures forall i :: 0 <= i < |s| ==> r[i] == LowerChar(s[i])
  {
    seq(|s|, i requires 0 <= i < |s| => LowerChar(s[i]))
  }

  predicate HasSuffix(s: string, t: string): (has: bool)
    ensures has ==> |t| <= |s|
  {
    |t| <= |s| && s[|s| - |t|..] == t
  }

  /** The parts of s between its dots, always at least one. */
  function Split(s: string): (parts: seq<string>)
    ensures |parts| >= 1
    decreases |s|
  {
    if s == [] then [[]]
    else
      var rest := Split(s[1..]);
      if s[0] == '.' then [[]] + rest else [[s[0]] + rest[0]] + rest[1..]
  }

  /** SetString in base 10: an optional sign and at least one digit. */
  function SetString(s: string): Option<int> {
    if s != [] && (s[0] == '+' || s[0] == '-') then
      var digits := s[1..];
      if digits == [] || !AllDigits(digits) then None
      else if s[0] == '-' then Some(-(Value(digits) as int))
      else Some(Value(digits))
    else if s != [] && AllDigits(s) then Some(Value(s))
    else None
  }

  /* ---------- parseValue ---------- */

  /** What follows the number is cut off and says how many decimal places the unit has. */
  function CutUnit(s: string): (string, nat) {
    if HasSuffix(s, "ether") then (s[..|s| - 5], 18)
    else if HasSuffix(s, "eth") then (s[..|s| - 3], 18)
    else if HasSuffix(s, "gwei") then (s[..|s| - 4], 9)
    else if HasSuffix(s, "wei") then (s[..|s| - 3], 0)
    else (s, 0)
  }

  /** The value in wei of the last of d decimal places of a unit with e places; beyond the unit's
      places repeated division leaves nothing. */
  function PlaceValue(e: nat, d: nat): nat {
    if d <= e then Pow10(e - d) else 0
  }

  /** A whole part and d decimals in a unit of e places. */
  function Worth(whole: int, decimal: int, e: nat, d: nat): int {
    whole * Pow10(e) + decimal * PlaceValue(e, d)
  }

  /** A whole part that is no integer counts as zero. */
  function Whole(t: string): int {
    match SetString(t)
    case Some(n) => n
    case None => 0
  }

  function ParseNumber(b: string, e: nat): Result<int, string> {
    var parts := Split(b);
    if '.' in b then
      if |parts| != 2 then Err("invalid decimal format")
      else
        match SetString(parts[1])
        case None => Err("invalid decimal part")
        case Some(decimal) => Ok(Worth(Whole(parts[0]), decimal, e, |parts[1]|))
    else
      match SetString(b)
      case None => Err("invalid number: " + b)
      case Some(n) => Ok(n * Pow10(e))
  }

  function Parse(s: string): Result<int, string> {
    if s == "" || s == "0" then Ok(0)
    else
      var (t, e) := CutUnit(ToLower(TrimSpace(s)));
      ParseNumber(TrimSpace(t), e)
  }

  lemma PlaceZero(e: nat)
    ensures PlaceValue(e, 0) == Pow10(e)
  {
  }

  lemma DividingPlaces(e: nat, i: nat)
    ensures PlaceValue(e, i) / 10 == PlaceValue(e, i + 1)
  {
  }

  lemma UnitPowers()
    ensures Pow10(18) == 1000000000000000000 && Pow10(9) == 1000000000 && Pow10(0) == 1
  {
    assert Pow10(9) == 1000000000;
    Pow10Add(9, 9);
  }

  /** The source's control flow: the string is reassigned, and the value of a decimal place is found
      by dividing once per decimal. */
  method ParseAmount(s0: string) returns (r: Result<int, string>)
    ensures r == Parse(s0)
  {
    hide TrimSpace, ToLower, SetString, Split, AllDigits, HasSuffix, Pow10, PlaceValue;
    UnitPowers();
    if s0 == "" || s0 == "0" {
      return Ok(0);
    }
    var s := ToLower(TrimSpace(s0));
    ghost var lowered := s;
    var multiplier := 1;
    ghost var e := CutUnit(lowered).1;
    if HasSuffix(s, "ether") {
      multiplier := 1000000000000000000;
      s := s[..|s| - 5];
    } else if HasSuffix(s, "eth") {
      multiplier := 1000000000000000000;
      s := s[..|s| - 3];
    } else if HasSuffix(s, "gwei") {
      multiplier := 1000000000;
      s := s[..|s| - 4];
    } else if HasSuffix(s, "wei") {
      s := s[..|s| - 3];
    }
    assert multiplier == Pow10(e) && s == CutUnit(lowered).0;
    s := TrimSpace(s);
    assert Parse(s0) == ParseNumber(s, e);
    hide CutUnit, Parse;
    if '.' in s {
      var parts := Split(s);
      if |parts| != 2 {
        return Err("invalid decimal format");
      }
      var whole := SetString(parts[0]);
      if whole.None? {
        whole := Some(0);
      }
      assert whole.value == Whole(parts[0]);
      var decimalStr := parts[1];
      var decimal := SetString(decimalStr);
      if decimal.None? {
        return Err("invalid decimal part");
      }
      var decimalMultiplier := multiplier / 1;
      PlaceZero(e);
      for i := 0 to |decimalStr|
        invariant decimalMultiplier == PlaceValue(e, i)
      {
        DividingPlaces(e, i);
        decimalMultiplier := decimalMultiplier / 10;
      }
      var result := whole.value * multiplier;
      result := result + decimal.value * decimalMultiplier;
      return Ok(result);
    }
    var val := SetString(s);
    if val.None? {
      return Err("invalid number: " + s);
    }
    return Ok(val.value * multiplier);
  }

  /* ---------- Texts ---------- */

  datatype Unit = Ether | Eth | Gwei | Wei | NoUnit

  function Name(u: Unit): string {
    match u
    case Ether => "ether"
    case Eth => "eth"
    case Gwei => "gwei"
    case Wei => "wei"
    case NoUnit => ""
  }

  /** A unit is worth ten to this power of wei. */
  function Exponent(u: Unit): nat {
    match u
    case Ether => 18
    case Eth => 18
    case Gwei => 9
    case Wei => 0
    case NoUnit => 0
  }

  predicate NumberChar(c: char) { IsDigit(c) || c == '.' || c == '+' || c == '-' }

  /** A text around the number body: any spacing, and the unit in any mix of cases. */
  ghost predicate TextOf(s: string, body: string, u: Unit) {
    exists before, between, unit, after ::
      AllSpace(before) && AllSpace(between) && AllSpace(after) && ToLower(unit) == Name(u)
      && (u == NoUnit ==> between == [])
      && s == before + (body + between + unit) + after
  }

  ghost predicate Body(b: string) {
    b != [] && forall i :: 0 <= i < |b| ==> NumberChar(b[i])
  }

  lemma {:induction false} TrimLeftSpaces(before: string, s: string)
    requires AllSpace(before) && s != [] && !IsSpace(s[0])
    ensures TrimLeft(before + s) == s
  {
    if before == [] {
      assert before + s == s;
    } else {
      TrimLeftSpaces(before[1..], s);
      assert (before + s)[1..] == before[1..] + s;
    }
  }

  lemma {:induction false} TrimRightSpaces(s: string, after: string)
    requires AllSpace(after) && s != [] && !IsSpace(s[|s| - 1])
    ensures TrimRight(s + after) == s
    decreases |after|
  {
    if after == [] {
      assert s + after == s;
    } else {
      var init := after[..|after| - 1];
      TrimRightSpaces(s, init);
      assert (s + after)[..|s + after| - 1] == s + init;
    }
  }

  lemma Trimmed(before: string, s: string, after: string)
    requires AllSpace(before) && AllSpace(after)
    requires s != [] && !IsSpace(s[0]) && !IsSpace(s[|s| - 1])
    ensures TrimSpace(before + s + after) == s
  {
    hide TrimLeft, TrimRight;
    assert before + s + after == before + (s + after);
    TrimLeftSpaces(before, s + after);
    TrimRightSpaces(s, after);
  }

  lemma SuffixOfAppend(core: string, name: string)
    ensures HasSuffix(core + name, name)
    ensures (core + name)[..|core + name| - |name|] == core
  {
  }

  lemma SuffixEndsAlike(s: string, t: string)
    requires t != [] && HasSuffix(s, t)
    ensures s != [] && s[|s| - 1] == t[|t| - 1]
  {
    assert s[|s| - |t|..][|t| - 1] == t[|t| - 1];
  }

  predicate EndsInLetter(s: string) {
    s != [] && ('a' <= s[|s| - 1] <= 'z')
  }

  lemma CutsName(core: string, u: Unit)
    requires core != [] && !EndsInLetter(core)
    ensures CutUnit(core + Name(u)) == (core, Exponent(u))
  {
    hide HasSuffix;
    var s := core + Name(u);
    SuffixOfAppend(core, Name(u));
    assert u != NoUnit ==> s[|s| - 1] == Name(u)[|Name(u)| - 1];
    if HasSuffix(s, "ether") { SuffixEndsAlike(s, "ether"); }
    if HasSuffix(s, "eth") { SuffixEndsAlike(s, "eth"); }
    if HasSuffix(s, "gwei") { SuffixEndsAlike(s, "gwei"); }
    if HasSuffix(s, "wei") { SuffixEndsAlike(s, "wei"); }
    if u == NoUnit {
      assert s == core;
    } else if u == Wei {
      WeiIsNotGwei(core);
    }
  }

  lemma WeiIsNotGwei(core: string)
    requires core != [] && !EndsInLetter(core)
    ensures !HasSuffix(core + "wei", "gwei")
  {
    var s := core + "wei";
    assert s[|s| - 4..][0] == core[|core| - 1];
  }

  /** Lowering a body with spaces and a unit touches only the unit. */
  lemma LowersUnit(b: string, between: string, unit: string, u: Unit)
    requires Body(b) && AllSpace(between) && ToLower(unit) == Name(u)
    ensures ToLower(b + between + unit) == b + between + Name(u)
  {
    var s := b + between + unit;
    forall i | 0 <= i < |s| ensures ToLower(s)[i] == (b + between + Name(u))[i] {
      if i >= |b + between| {
        assert s[i] == unit[i - |b + between|];
      }
    }
  }

  /** The trimmed text is the body, the spaces between, and the unit. */
  lemma TrimsText(before: string, b: string, between: string, unit: string, after: string, u: Unit)
    requires Body(b) && AllSpace(before) && AllSpace(between) && AllSpace(after) && ToLower(unit) == Name(u)
    requires u == NoUnit ==> between == []
    ensures TrimSpace(before + (b + between + unit) + after) == b + between + unit
    ensures TrimSpace(b + between) == b
  {
    hide TrimSpace;
    var s := b + between + unit;
    assert s[0] == b[0];
    if u == NoUnit {
      assert s == b;
    } else {
      assert s[|s| - 1] == unit[|unit| - 1];
      assert LowerChar(unit[|unit| - 1]) == Name(u)[|unit| - 1];
    }
    Trimmed(before, s, after);
    assert [] + b + between == b + between;
    Trimmed([], b, between);
  }

  /** Spacing and letter case do not matter: a text is worth what its body and unit say. */
  lemma TextParses(s: string, b: string, u: Unit)
    requires Body(b) && TextOf(s, b, u)
    ensures Parse(s) == ParseNumber(b, Exponent(u))
  {
    hide ParseNumber, CutUnit, TrimSpace;
    var before, between, unit, after :|
      AllSpace(before) && AllSpace(between) && AllSpace(after) && ToLower(unit) == Name(u)
      && (u == NoUnit ==> between == []) && s == before + (b + between + unit) + after;
    TrimsText(before, b, between, unit, after, u);
    LowersUnit(b, between, unit, u);
    assert !EndsInLetter(b + between) by {
      assert between == [] ==> b + between == b;
    }
    CutsName(b + between, u);
    if s == "0" {
      assert b + between + unit == "0" by {
        assert |s| == |before| + |b| + |between| + |unit| + |after|;
        assert s[|before|] == b[0];
      }
      assert b == "0" && |unit| == 0;
      assert u == NoUnit;
      ZeroParses();
    }
  }

  lemma ZeroParses()
    ensures ParseNumber("0", 0) == Ok(0)
    ensures Whole("0") == 0
  {
    assert '.' !in "0";
    assert Value("0") == 0;
  }

  /* ---------- What the number is worth ---------- */

  lemma {:induction false} SplitWithoutDot(s: string)
    requires '.' !in s
    ensures Split(s) == [s]
  {
    if s != [] {
      assert s[0] in s && forall c :: c in s[1..] ==> c in s;
      SplitWithoutDot(s[1..]);
      assert [s[0]] + s[1..] == s;
    }
  }

  lemma {:induction false} SplitAtDot(w: string, f: string)
    requires '.' !in w && '.' !in f
    ensures Split(w + "." + f) == [w, f]
  {
    var s := w + "." + f;
    if w == [] {
      assert s[1..] == f;
      SplitWithoutDot(f);
    } else {
      assert s[0] in w && forall c :: c in w[1..] ==> c in w;
      SplitAtDot(w[1..], f);
      assert s[1..] == w[1..] + "." + f;
      assert [s[0]] + w[1..] == w;
    }
  }

  lemma DigitsHaveNoDot(s: string)
    requires AllDigits(s)
    ensures '.' !in s && Whole(s) == Value(s)
    ensures SetString(s) == if s == [] then None else Some(Value(s))
  {
  }

  lemma MinusHasNoDot(w: string)
    requires AllDigits(w)
    ensures '.' !in "-" + w && Whole("-" + w) == -(Value(w) as int)
    ensures SetString("-" + w) == if w == [] then None else Some(-(Value(w) as int))
  {
    var s := "-" + w;
    assert s[1..] == w;
    forall c | c in s ensures c != '.' {
      assert c == s[0] || c in w;
    }
  }

  /** What a number with a dot parses to. */
  lemma DottedParses(t: string, f: string, e: nat)
    requires '.' !in t && AllDigits(f) && f != []
    ensures ParseNumber(t + "." + f, e) == Ok(Worth(Whole(t), Value(f), e, |f|))
  {
    hide SetString, Whole, Worth, Split, AllDigits, Pow10, PlaceValue, Value;
    DigitsHaveNoDot(f);
    SplitAtDot(t, f);
    assert (t + "." + f)[|t|] == '.';
  }

  /** Ten to the d times what the parser makes of a fraction of d digits, against its true value. */
  lemma FractionScale(f: int, e: nat, d: nat)
    ensures d <= e ==> f * PlaceValue(e, d) * Pow10(d) == f * Pow10(e)
    ensures d > e ==> f * PlaceValue(e, d) == 0
  {
    hide Pow10;
    if d <= e {
      Pow10Add(e - d, d);
      Associate(f, Pow10(e - d), Pow10(d));
    }
  }

  lemma Associate(a: int, b: int, c: int)
    ensures a * b * c == a * (b * c)
  {
  }

  lemma Distribute(a: int, b: int, c: int)
    ensures (a + b) * c == a * c + b * c
  {
  }

  /** A decimal with d digits after the dot is worth exactly its numeral times the unit just when the
      unit has that many places or the fraction is zero; otherwise only the whole part counts. */
  lemma DecimalIsExact(s: string, w: string, f: string, u: Unit)
    requires AllDigits(w) && AllDigits(f) && f != [] && TextOf(s, w + "." + f, u)
    ensures Parse(s).Ok?
    ensures Parse(s).value * Pow10(|f|) == Value(w + f) * Pow10(Exponent(u))
            <==> |f| <= Exponent(u) || Value(f) == 0
    ensures |f| > Exponent(u) ==> Parse(s).value == Value(w) * Pow10(Exponent(u))
  {
    hide Parse, ParseNumber, TextOf, Whole, Worth, SetString, Pow10, PlaceValue, Value, Exponent;
    var e, d := Exponent(u), |f|;
    NumeralIsBody(w, f);
    TextParses(s, w + "." + f, u);
    DigitsHaveNoDot(w);
    DottedParses(w, f, e);
    ValueAppend(w, f);
    ExactWhen(Value(w), Value(f), e, d);
  }

  lemma NumeralIsBody(w: string, f: string)
    requires AllDigits(w) && AllDigits(f)
    ensures Body(w + "." + f) && Body("-" + w + "." + f)
  {
  }

  lemma ExactWhen(w: int, f: int, e: nat, d: nat)
    ensures var v := Worth(w, f, e, d);
            && (v * Pow10(d) == (w * Pow10(d) + f) * Pow10(e) <==> d <= e || f == 0)
            && (d > e ==> v == w * Pow10(e))
  {
    hide Pow10, PlaceValue;
    FractionScale(f, e, d);
    WorthScaled(w, f, Pow10(e), Pow10(d), PlaceValue(e, d));
    NonZeroProduct(f, Pow10(e));
  }

  lemma WorthScaled(w: int, f: int, unit: int, scale: int, place: int)
    ensures (w * unit + f * place) * scale - (w * scale + f) * unit == f * place * scale - f * unit
  {
    Distribute(w * unit, f * place, scale);
    Distribute(w * scale, f, unit);
    assert w * unit * scale == w * scale * unit;
  }

  lemma NonZeroProduct(f: int, p: int)
    requires p > 0
    ensures f * p == 0 <==> f == 0
  {
  }

  /** A minus sign reaches only the whole part: a negative decimal is exact just when its fraction
      is zero, whatever the unit. */
  lemma NegativeDecimalIsExact(s: string, w: string, f: string, u: Unit)
    requires AllDigits(w) && AllDigits(f) && f != [] && TextOf(s, "-" + w + "." + f, u)
    ensures Parse(s).Ok?
    ensures Parse(s).value * Pow10(|f|) == -(Value(w + f) * Pow10(Exponent(u))) <==> Value(f) == 0
  {
    hide Parse, ParseNumber, TextOf, Whole, Worth, SetString, Pow10, PlaceValue, Value, Exponent;
    var e, d := Exponent(u), |f|;
    NumeralIsBody(w, f);
    TextParses(s, "-" + w + "." + f, u);
    MinusHasNoDot(w);
    DottedParses("-" + w, f, e);
    ValueAppend(w, f);
    NegativeExactWhen(Value(w), Value(f), e, d);
  }

  lemma NegativeExactWhen(w: int, f: int, e: nat, d: nat)
    ensures var v := Worth(-w, f, e, d);
            v * Pow10(d) == -((w * Pow10(d) + f) * Pow10(e)) <==> f == 0
  {
    hide Pow10, PlaceValue;
    FractionScale(f, e, d);
    SignLost(w, f, Pow10(e), Pow10(d), PlaceValue(e, d));
  }

  lemma SignLost(w: int, f: int, unit: int, scale: int, place: int)
    requires unit > 0 && (f * place * scale == f * unit || f * place == 0)
    ensures (-w * unit + f * place) * scale == -((w * scale + f) * unit) <==> f == 0
  {
    var whole, part := w * unit * scale, f * place;
    Distribute(-w * unit, part, scale);
    Distribute(w * scale, f, unit);
    assert w * scale * unit == whole;
    assert -w * unit == -(w * unit);
    Negate(w * unit, scale);
    assert part == 0 ==> part * scale == 0;
    NonZeroProduct(f, unit);
  }

  lemma Negate(a: int, b: int)
    ensures -a * b == -(a * b)
  {
  }

  /** Whole amounts are exact in every unit, with their sign. */
  lemma IntegerIsExact(s: string, w: string, u: Unit)
    requires AllDigits(w) && w != []
    ensures TextOf(s, w, u) ==> Parse(s) == Ok(Value(w) * Pow10(Exponent(u)))
    ensures TextOf(s, "-" + w, u) ==> Parse(s) == Ok(-(Value(w) * Pow10(Exponent(u))))
  {
    hide Parse, TextOf, SetString, Pow10, Value, Exponent, Split;
    DigitsHaveNoDot(w);
    MinusHasNoDot(w);
    if TextOf(s, w, u) {
      TextParses(s, w, u);
    }
    if TextOf(s, "-" + w, u) {
      TextParses(s, "-" + w, u);
    }
  }

  /** The units, in wei. */
  lemma UnitWorth(s: string, w: string, u: Unit)
    requires AllDigits(w) && w != [] && TextOf(s, w, u)
    ensures u.Ether? || u.Eth? ==> Parse(s) == Ok(Value(w) * 1_000_000_000_000_000_000)
    ensures u.Gwei? ==> Parse(s) == Ok(Value(w) * 1_000_000_000)
    ensures u.Wei? || u.NoUnit? ==> Parse(s) == Ok(Value(w))
  {
    hide Parse, TextOf, Value;
    IntegerIsExact(s, w, u);
    UnitPowers();
  }

  /* ---------- Printing and parsing back ---------- */

  /** A number of wei as a decimal with e places. */
  function Fixed(amount: nat, e: nat): string {
    if e == 0 then Decimal(amount) else Decimal(Leading(amount, e)) + "." + Padded(amount, e)
  }

  /** An amount of wei in a unit, with all of the unit's places. */
  function Print(amount: nat, u: Unit): string {
    Fixed(amount, Exponent(u)) + Name(u)
  }

  /** Every amount printed in any unit parses back to itself. */
  lemma PrintThenParse(amount: nat, u: Unit)
    ensures Parse(Print(amount, u)) == Ok(amount)
  {
    hide Parse, TextOf, Pow10, Value, Decimal, Padded, Exponent, Name;
    var e := Exponent(u);
    if e == 0 {
      PlainText(Decimal(amount), u);
      IntegerIsExact(Print(amount, u), Decimal(amount), u);
      DecimalValue(amount);
      UnitPowers();
    } else {
      var w, f := Decimal(Leading(amount, e)), Padded(amount, e);
      PlainText(w + "." + f, u);
      DecimalIsExact(Print(amount, u), w, f, u);
      DecimalValue(Leading(amount, e));
      LeadingAndPadded(amount, e);
      ValueAppend(w, f);
      Cancel(Parse(Print(amount, u)).value, amount, Pow10(e));
    }
  }

  lemma PlainText(b: string, u: Unit)
    ensures TextOf(b + Name(u), b, u)
  {
    var none: string := [];
    assert AllSpace(none) && ToLower(Name(u)) == Name(u);
    assert b + Name(u) == none + (b + none + Name(u)) + none;
  }

  lemma Cancel(a: int, b: int, p: int)
    requires p > 0 && a * p == b * p
    ensures a == b
  {
  }

  /* ---------- Which numbers are accepted ---------- */

  lemma {:induction false} SplitInTwo(s: string)
    ensures |Split(s)| == 1 <==> '.' !in s
    ensures |Split(s)| == 2 ==> var p := Split(s); s == p[0] + "." + p[1] && '.' !in p[0] && '.' !in p[1]
    ensures |Split(s)| == 1 ==> Split(s) == [s]
  {
    if s != [] {
      SplitInTwo(s[1..]);
      assert s == [s[0]] + s[1..];
      assert '.' in s <==> s[0] == '.' || '.' in s[1..];
      var p, rest := Split(s), Split(s[1..]);
      if |p| == 2 && s[0] != '.' {
        assert p == [[s[0]] + rest[0], rest[1]];
        assert s == [s[0]] + rest[0] + "." + rest[1];
      } else if |p| == 2 {
        assert p == [[], s[1..]];
        assert s == [] + "." + s[1..];
      }
    }
  }

  lemma SetStringHasNoDot(s: string)
    requires SetString(s).Some?
    ensures '.' !in s
  {
    if s[0] == '+' || s[0] == '-' {
      assert s == [s[0]] + s[1..];
    }
  }

  /** A number is accepted just when it is an integer, or an integer after its only dot: what stands
      before the dot does not matter. */
  lemma AcceptedWhen(b: string, e: nat)
    ensures ParseNumber(b, e).Ok? <==>
            SetString(b).Some? || exists t, f :: '.' !in t && SetString(f).Some? && b == t + "." + f
  {
    hide SetString, Split, Pow10, PlaceValue, Worth;
    SplitInTwo(b);
    if SetString(b).Some? {
      SetStringHasNoDot(b);
    }
    if t, f :| '.' !in t && SetString(f).Some? && b == t + "." + f {
      SetStringHasNoDot(f);
      SplitAtDot(t, f);
      assert b[|t|] == '.';
    }
  }

  /** A whole part that is no integer counts as zero instead of being refused. */
  lemma UnreadableWholeIsZero(t: string, f: string, e: nat)
    requires '.' !in t && SetString(t) == None && AllDigits(f) && f != []
    ensures ParseNumber(t + "." + f, e) == ParseNumber("0." + f, e)
  {
    hide Pow10, PlaceValue, Worth, Value, ParseNumber;
    assert AllDigits("0");
    DigitsHaveNoDot("0");
    assert Whole("0") == 0 by { ZeroParses(); }
    DottedParses(t, f, e);
    DottedParses("0", f, e);
    assert "0" + "." + f == "0." + f;
  }
}
