/** Exchange rates and money rounding: `backend/app/core/fx.py`. Decimals are exact reals. */
module Fx {
  import opened Wrappers
  import Text

  // ---------------------------------------------------------------------------------------
  // Half-up rounding to whole units
  // ---------------------------------------------------------------------------------------

  /** `ROUND_HALF_UP`: to the nearest unit, ties away from zero. */
  function RoundUnits(x: real): int {
    if x >= 0.0 then (x + 0.5).Floor else -((-x + 0.5).Floor)
  }

  /** What half-up rounding means, without floors: nearest, and a tie goes away from zero. */
  ghost predicate IsHalfUp(x: real, k: int) {
    && -0.5 <= k as real - x <= 0.5
    && (k as real - x == 0.5 ==> x > 0.0)
    && (k as real - x == -0.5 ==> x < 0.0)
  }

  /** Exactly one whole number has that property, and it is the result. */
  lemma RoundIsHalfUp(x: real, k: int)
    ensures k == RoundUnits(x) <==> IsHalfUp(x, k)
  {
    var r := RoundUnits(x);
    if x >= 0.0 {
      assert r as real <= x + 0.5 < r as real + 1.0;
    } else {
      assert -r as real <= -x + 0.5 < -r as real + 1.0;
    }
    if IsHalfUp(x, k) {
      assert -1.0 <= (k - r) as real <= 1.0;
    }
  }

  lemma RoundIsOdd(x: real)
    ensures RoundUnits(-x) == -RoundUnits(x)
  {
    RoundIsHalfUp(x, RoundUnits(x));
    RoundIsHalfUp(-x, -RoundUnits(x));
  }

  lemma RoundIsMonotone(x: real, y: real)
    requires x <= y
    ensures RoundUnits(x) <= RoundUnits(y)
  {
    RoundIsHalfUp(x, RoundUnits(x));
    RoundIsHalfUp(y, RoundUnits(y));
  }

  // ---------------------------------------------------------------------------------------
  // Rounding many lines against rounding their sum
  // ---------------------------------------------------------------------------------------

  function Sum(xs: seq<real>): real {
    if xs == [] then 0.0 else Sum(xs[..|xs| - 1]) + xs[|xs| - 1]
  }

  function SumOfRounded(xs: seq<real>): int {
    if xs == [] then 0 else SumOfRounded(xs[..|xs| - 1]) + RoundUnits(xs[|xs| - 1])
  }

  /** Lines gain at most half a unit each, and less in all when they sum to a negative. */
  lemma {:induction false} RoundedGain(xs: seq<real>)
    ensures 2.0 * (SumOfRounded(xs) as real - Sum(xs)) <= |xs| as real
    ensures Sum(xs) < 0.0 ==> 2.0 * (SumOfRounded(xs) as real - Sum(xs)) < |xs| as real
  {
    if xs != [] {
      RoundedGain(xs[..|xs| - 1]);
      var x := xs[|xs| - 1];
      RoundIsHalfUp(x, RoundUnits(x));
    }
  }

  lemma GainOverSum(xs: seq<real>)
    ensures 2 * (SumOfRounded(xs) - RoundUnits(Sum(xs))) <= |xs|
  {
    RoundedGain(xs);
    var k := RoundUnits(Sum(xs));
    RoundIsHalfUp(Sum(xs), k);
    assert 2.0 * (SumOfRounded(xs) - k) as real < |xs| as real + 1.0;
  }

  function Negated(xs: seq<real>): seq<real> {
    seq(|xs|, i requires 0 <= i < |xs| => -xs[i])
  }

  lemma {:induction false} NegatedSums(xs: seq<real>)
    ensures Sum(Negated(xs)) == -Sum(xs) && SumOfRounded(Negated(xs)) == -SumOfRounded(xs)
  {
    if xs != [] {
      var init := xs[..|xs| - 1];
      NegatedSums(init);
      assert Negated(xs)[..|xs| - 1] == Negated(init);
      RoundIsOdd(xs[|xs| - 1]);
    }
  }

  /** In whole units: n roundings and one rounding of the sum differ by at most n/2. */
  lemma RoundingLinesOrSum(xs: seq<real>)
    ensures -|xs| <= 2 * (SumOfRounded(xs) - RoundUnits(Sum(xs))) <= |xs|
  {
    GainOverSum(xs);
    GainOverSum(Negated(xs));
    NegatedSums(xs);
    RoundIsOdd(Sum(xs));
  }

  function Halves(n: nat): seq<real> {
    seq(n, i => 0.5)
  }

  /** The bound is attained: n lines of half a unit gain n/2 units, rounded down. */
  lemma {:induction false} HalvesSum(n: nat)
    ensures 2.0 * Sum(Halves(n)) == n as real && SumOfRounded(Halves(n)) == n
  {
    if n > 0 {
      HalvesSum(n - 1);
      assert Halves(n)[..n - 1] == Halves(n - 1);
      RoundIsHalfUp(0.5, 1);
    }
  }

  lemma LinesBoundIsTight(n: nat)
    ensures SumOfRounded(Halves(n)) - RoundUnits(Sum(Halves(n))) == n / 2
  {
    HalvesSum(n);
    var k := n - n / 2;
    assert k as real - Sum(Halves(n)) == 0.0 || k as real - Sum(Halves(n)) == 0.5;
    RoundIsHalfUp(Sum(Halves(n)), k);
  }

  // ---------------------------------------------------------------------------------------
  // Rounding to decimal places
  // ---------------------------------------------------------------------------------------

  /** Units per one: `10 ** places` */
  function Scale(places: nat): (s: int)
    ensures s >= 1
  {
    if places == 0 then 1 else 10 * Scale(places - 1)
  }

  /** `value.quantize(Decimal(1).scaleb(-places), rounding=ROUND_HALF_UP)` */
  function Quantize(value: real, places: nat): real {
    FromUnits(RoundUnits(ToUnits(value, places)), places)
  }

  function ToUnits(value: real, places: nat): real {
    value * Scale(places) as real
  }

  function FromUnits(units: int, places: nat): real {
    units as real / Scale(places) as real
  }

  /** The multiples of the unit: what a column with that many places can store. */
  ghost predicate Storable(value: real, places: nat) {
    exists k :: FromUnits(k, places) == value
  }

  lemma UnitsAndBack(k: int, places: nat)
    ensures ToUnits(FromUnits(k, places), places) == k as real
  {
  }

  lemma Difference(x: real, y: real, places: nat)
    ensures ToUnits(x - y, places) == ToUnits(x, places) - ToUnits(y, places)
  {
    Distribute(x, -y, Scale(places) as real);
  }

  lemma Together(x: real, y: real, places: nat)
    ensures ToUnits(x + y, places) == ToUnits(x, places) + ToUnits(y, places)
  {
    Distribute(x, y, Scale(places) as real);
  }

  lemma Distribute(x: real, y: real, s: real)
    ensures (x + y) * s == x * s + y * s
  {
  }

  /** A storable amount is left alone, and everything becomes storable: rounding is idempotent. */
  lemma QuantizeFixes(value: real, places: nat)
    ensures Storable(Quantize(value, places), places)
    ensures Quantize(value, places) == value <==> Storable(value, places)
  {
    if k :| FromUnits(k, places) == value {
      UnitsAndBack(k, places);
      RoundIsHalfUp(k as real, k);
    }
  }

  /** Half a unit is the largest change. */
  lemma QuantizeIsNear(value: real, places: nat)
    ensures -0.5 <= ToUnits(Quantize(value, places) - value, places) <= 0.5
  {
    var x := ToUnits(value, places);
    RoundIsHalfUp(x, RoundUnits(x));
    UnitsAndBack(RoundUnits(x), places);
    Difference(Quantize(value, places), value, places);
  }

  lemma UnitsOrder(x: real, y: real, places: nat)
    ensures x <= y <==> ToUnits(x, places) <= ToUnits(y, places)
  {
    ScaledOrder(x, y, Scale(places) as real);
  }

  lemma ScaledOrder(x: real, y: real, s: real)
    requires s > 0.0
    ensures x <= y <==> x * s <= y * s
  {
    Distribute(x, -y, s);
  }

  lemma QuantizeIsMonotone(x: real, y: real, places: nat)
    requires x <= y
    ensures Quantize(x, places) <= Quantize(y, places)
  {
    UnitsOrder(x, y, places);
    RoundIsMonotone(ToUnits(x, places), ToUnits(y, places));
    UnitsAndBack(RoundUnits(ToUnits(x, places)), places);
    UnitsAndBack(RoundUnits(ToUnits(y, places)), places);
    UnitsOrder(Quantize(x, places), Quantize(y, places), places);
  }

  lemma QuantizeIsOdd(x: real, places: nat)
    ensures Quantize(-x, places) == -Quantize(x, places)
  {
    Difference(0.0, x, places);
    RoundIsOdd(ToUnits(x, places));
    var k := RoundUnits(ToUnits(x, places));
    UnitsAndBack(k, places);
    UnitsAndBack(-k, places);
    Difference(0.0, FromUnits(k, places), places);
    UnitsOrder(FromUnits(-k, places), -FromUnits(k, places), places);
    UnitsOrder(-FromUnits(k, places), FromUnits(-k, places), places);
  }

  // ---------------------------------------------------------------------------------------
  // A document's lines and its total
  // ---------------------------------------------------------------------------------------

  function Product(x: real, y: real): real {
    x * y
  }

  /** `convert_to_base` on finite operands */
  function Converted(amount: real, rate: real, places: nat): real {
    Quantize(Product(amount, rate), places)
  }

  function LinesConverted(amounts: seq<real>, rate: real, places: nat): real {
    if amounts == [] then 0.0
    else LinesConverted(amounts[..|amounts| - 1], rate, places) + Converted(amounts[|amounts| - 1], rate, places)
  }

  function Scaled(amounts: seq<real>, factor: real): seq<real> {
    seq(|amounts|, i requires 0 <= i < |amounts| => Product(amounts[i], factor))
  }

  lemma ScaledInit(amounts: seq<real>, factor: real)
    requires amounts != []
    ensures Scaled(amounts, factor)[..|amounts| - 1] == Scaled(amounts[..|amounts| - 1], factor)
  {
    var n := |amounts| - 1;
    forall i | 0 <= i < n
      ensures Scaled(amounts, factor)[..n][i] == Scaled(amounts[..n], factor)[i]
    {
      assert amounts[..n][i] == amounts[i];
    }
  }

  lemma {:induction false} ScaledSum(amounts: seq<real>, factor: real)
    ensures Sum(Scaled(amounts, factor)) == Product(Sum(amounts), factor)
  {
    if amounts != [] {
      var n := |amounts| - 1;
      ScaledSum(amounts[..n], factor);
      ScaledInit(amounts, factor);
      Distribute(Sum(amounts[..n]), amounts[n], factor);
    }
  }

  function LineFactor(rate: real, places: nat): real {
    rate * Scale(places) as real
  }

  lemma LineInUnits(amount: real, rate: real, places: nat)
    ensures ToUnits(Converted(amount, rate, places), places) == RoundUnits(Product(amount, LineFactor(rate, places))) as real
  {
    Reassociate(amount, rate, Scale(places) as real);
    QuantizeInUnits(Product(amount, rate), Product(amount, LineFactor(rate, places)), places);
  }

  lemma QuantizeInUnits(value: real, units: real, places: nat)
    requires ToUnits(value, places) == units
    ensures ToUnits(Quantize(value, places), places) == RoundUnits(units) as real
  {
    UnitsAndBack(RoundUnits(units), places);
  }

  lemma Reassociate(x: real, y: real, z: real)
    ensures (x * y) * z == x * (y * z)
  {
  }

  lemma {:induction false} LinesInUnits(amounts: seq<real>, rate: real, places: nat)
    ensures ToUnits(LinesConverted(amounts, rate, places), places) ==
            SumOfRounded(Scaled(amounts, LineFactor(rate, places))) as real
  {
    if amounts != [] {
      var n := |amounts| - 1;
      var xs := Scaled(amounts, LineFactor(rate, places));
      LinesInUnits(amounts[..n], rate, places);
      ScaledInit(amounts, LineFactor(rate, places));
      LineInUnits(amounts[n], rate, places);
      Together(LinesConverted(amounts[..n], rate, places), Converted(amounts[n], rate, places), places);
      assert SumOfRounded(xs) == SumOfRounded(xs[..n]) + RoundUnits(xs[n]);
    }
  }

  lemma TotalInUnits(amounts: seq<real>, rate: real, places: nat)
    ensures ToUnits(Converted(Sum(amounts), rate, places), places) ==
            RoundUnits(Sum(Scaled(amounts, LineFactor(rate, places)))) as real
  {
    ScaledSum(amounts, LineFactor(rate, places));
    LineInUnits(Sum(amounts), rate, places);
  }

  /** In units of the currency: converting n lines one by one, less converting their sum. */
  function Drift(amounts: seq<real>, rate: real, places: nat): real {
    ToUnits(LinesConverted(amounts, rate, places), places) - ToUnits(Converted(Sum(amounts), rate, places), places)
  }

  /** The two differ by at most n/2 units, whatever the amounts, the rate and the precision. */
  lemma ConvertingLinesOrSum(amounts: seq<real>, rate: real, places: nat)
    ensures -(|amounts| as real) / 2.0 <= Drift(amounts, rate, places) <= |amounts| as real / 2.0
  {
    var xs := Scaled(amounts, LineFactor(rate, places));
    LinesInUnits(amounts, rate, places);
    TotalInUnits(amounts, rate, places);
    RoundingLinesOrSum(xs);
    assert Drift(amounts, rate, places) == (SumOfRounded(xs) - RoundUnits(Sum(xs))) as real;
  }

  // ---------------------------------------------------------------------------------------
  // Rates and precisions as they arrive
  // ---------------------------------------------------------------------------------------

  datatype Number = Finite(value: real) | Infinity(negative: bool) | NaN

  /** A JSON or database value. */
  datatype Input = Missing | Flag(on: bool) | Numeric(number: Number) | Written(text: string)

  datatype Problem = NotANumber | NotPositive | Implausible | TooSmall | RateRequired | Overflow | InvalidOperation

  /** `Decimal(text)`: the syntax of decimal literals is not modelled. */
  type Reader = string -> Option<Number>

  const RATE_PLACES: nat := 8
  const MAX_RATE: real := 1000000000.0
  const DEFAULT_CURRENCY_PRECISION: nat := 2
  const MAX_CURRENCY_PRECISION: nat := 6

  predicate Blank(value: Input) {
    value == Missing || value == Written("")
  }

  /** `to_decimal` without a default: blank is zero, a truth value is no number. */
  function ToDecimal(value: Input, read: Reader): Result<Number, Problem> {
    match value
    case Missing => Success(Finite(0.0))
    case Flag(_) => Failure(NotANumber)
    case Numeric(n) => Success(n)
    case Written(text) =>
      if text == "" then Success(Finite(0.0))
      else
        match read(Text.Strip(text))
        case None => Failure(NotANumber)
        case Some(n) => Success(n)
  }

  function NormalizeRate(value: Input, read: Reader): Result<real, Problem> {
    match ToDecimal(value, read)
    case Failure(problem) => Failure(problem)
    case Success(rate) =>
      if !rate.Finite? || rate.value <= 0.0 then Failure(NotPositive)
      else if rate.value > MAX_RATE then Failure(Implausible)
      else
        var quantized := Quantize(rate.value, RATE_PLACES);
        if quantized <= 0.0 then Failure(TooSmall) else Success(quantized)
  }

  function IsValidRate(value: Input, read: Reader): bool {
    match ToDecimal(value, read)
    case Failure(_) => false
    case Success(rate) => rate.Finite? && 0.0 < rate.value <= MAX_RATE
  }

  /** Exactly the finite numbers from half of 1e-8 up to 1e9 are accepted. */
  lemma NormalizeAcceptsIff(value: Input, read: Reader)
    ensures NormalizeRate(value, read).Success? <==>
            exists rate :: ToDecimal(value, read) == Success(Finite(rate)) && 0.5 <= ToUnits(rate, RATE_PLACES) && rate <= MAX_RATE
  {
    if ToDecimal(value, read).Success? && ToDecimal(value, read).value.Finite? {
      var rate := ToDecimal(value, read).value.value;
      var k := RoundUnits(ToUnits(rate, RATE_PLACES));
      RoundIsHalfUp(ToUnits(rate, RATE_PLACES), k);
      UnitsAndBack(k, RATE_PLACES);
      UnitsOrder(0.0, rate, RATE_PLACES);
      UnitsOrder(rate, 0.0, RATE_PLACES);
      UnitsOrder(Quantize(rate, RATE_PLACES), 0.0, RATE_PLACES);
    }
  }

  /** The others are refused, each for its own reason. */
  lemma NormalizeRefuses(value: Input, read: Reader)
    ensures NormalizeRate(value, read) == Failure(NotANumber) <==> ToDecimal(value, read).Failure?
    ensures ToDecimal(value, read).Success? ==>
      var rate := ToDecimal(value, read).value;
      && (NormalizeRate(value, read) == Failure(NotPositive) <==> !rate.Finite? || rate.value <= 0.0)
      && (NormalizeRate(value, read) == Failure(Implausible) <==> rate.Finite? && rate.value > 1000000000.0)
      && (NormalizeRate(value, read) == Failure(TooSmall) <==> rate.Finite? && 0.0 < rate.value && ToUnits(rate.value, RATE_PLACES) < 0.5)
  {
    if ToDecimal(value, read).Success? && ToDecimal(value, read).value.Finite? {
      var rate := ToDecimal(value, read).value.value;
      NormalizeAcceptsIff(value, read);
      UnitsOrder(rate, MAX_RATE, RATE_PLACES);
      MaxRateInUnits();
    }
  }

  lemma MaxRateInUnits()
    ensures ToUnits(MAX_RATE, RATE_PLACES) > 0.5
  {
    assert Scale(RATE_PLACES) == 100000000 by {
      assert Scale(4) == 10000;
    }
  }

  /** `is_valid_rate` also accepts positive rates too small to be stored, and only those more. */
  lemma ValidButNotStorable(value: Input, read: Reader)
    ensures NormalizeRate(value, read).Success? || NormalizeRate(value, read) == Failure(TooSmall) <==> IsValidRate(value, read)
  {
  }

  /** What is stored lies on a multiple of 1e-8 in (0, 1e9], within half of 1e-8 of the input. */
  lemma NormalizeLands(value: Input, read: Reader)
    requires NormalizeRate(value, read).Success?
    ensures
      var stored := NormalizeRate(value, read).value;
      && Storable(stored, RATE_PLACES) && 0.0 < stored <= MAX_RATE
      && -0.5 <= ToUnits(stored - ToDecimal(value, read).value.value, RATE_PLACES) <= 0.5
  {
    var rate := ToDecimal(value, read).value.value;
    QuantizeFixes(rate, RATE_PLACES);
    QuantizeIsNear(rate, RATE_PLACES);
    MaxRateIsStorable();
    QuantizeFixes(MAX_RATE, RATE_PLACES);
    QuantizeIsMonotone(rate, MAX_RATE, RATE_PLACES);
  }

  lemma MaxRateIsStorable()
    ensures Storable(MAX_RATE, RATE_PLACES)
  {
    assert Scale(RATE_PLACES) == 100000000 by {
      assert Scale(4) == 10000;
    }
    assert FromUnits(100000000000000000, RATE_PLACES) == MAX_RATE;
  }

  /** The rates that pass unchanged are exactly the multiples of 1e-8 in (0, 1e9]. */
  lemma NormalizeFixes(rate: real, read: Reader)
    ensures NormalizeRate(Numeric(Finite(rate)), read) == Success(rate) <==>
            Storable(rate, RATE_PLACES) && 0.0 < rate <= MAX_RATE
  {
    QuantizeFixes(rate, RATE_PLACES);
  }

  /** Storing a stored rate again changes nothing. */
  lemma NormalizeTwice(value: Input, read: Reader)
    requires NormalizeRate(value, read).Success?
    ensures NormalizeRate(Numeric(Finite(NormalizeRate(value, read).value)), read) == NormalizeRate(value, read)
  {
    NormalizeLands(value, read);
    NormalizeFixes(NormalizeRate(value, read).value, read);
  }

  // ---------------------------------------------------------------------------------------
  // The rate of a document
  // ---------------------------------------------------------------------------------------

  /** `str(text or "")` */
  function Or(text: Option<string>): string {
    if text.Some? then text.value else ""
  }

  /** `str.upper` is passed in. */
  function SameCurrency(document: Option<string>, base: Option<string>, upper: string -> string): bool {
    var left := upper(Text.Strip(Or(document)));
    left != "" && left == upper(Text.Strip(Or(base)))
  }

  function DocumentRate(document: Option<string>, base: Option<string>, rate: Input, read: Reader, upper: string -> string)
    : Result<real, Problem>
  {
    if SameCurrency(document, base, upper) then Success(1.0)
    else if Blank(rate) then Failure(RateRequired)
    else NormalizeRate(rate, read)
  }

  /**
   The rate of a document: 1 when both currencies are given and equal, trimmed and in upper case;
   otherwise a missing rate is an error, and any other is validated.
   */
  lemma DocumentRateIs(document: Option<string>, base: Option<string>, rate: Input, read: Reader, upper: string -> string)
    ensures
      var left := upper(Text.Strip(if document.Some? then document.value else ""));
      var right := upper(Text.Strip(if base.Some? then base.value else ""));
      var stored := DocumentRate(document, base, rate, read, upper);
      && (left == right && left != "" ==> stored == Success(1.0))
      && ((left != right || left == "") && (rate == Missing || rate == Written("")) ==> stored == Failure(RateRequired))
      && ((left != right || left == "") && rate != Missing && rate != Written("") ==> stored == NormalizeRate(rate, read))
  {
  }

  /** Every rate a document can carry is storable and usable, and carrying it again keeps it. */
  lemma DocumentRateIsStable(document: Option<string>, base: Option<string>, rate: Input, read: Reader, upper: string -> string)
    requires DocumentRate(document, base, rate, read, upper).Success?
    ensures
      var stored := DocumentRate(document, base, rate, read, upper).value;
      && Storable(stored, RATE_PLACES) && 0.0 < stored <= MAX_RATE
      && DocumentRate(document, base, Numeric(Finite(stored)), read, upper) == Success(stored)
  {
    if SameCurrency(document, base, upper) {
      UnitsAndBack(Scale(RATE_PLACES), RATE_PLACES);
      assert FromUnits(Scale(RATE_PLACES), RATE_PLACES) == 1.0;
    } else {
      NormalizeLands(rate, read);
      NormalizeTwice(rate, read);
    }
  }

  /** In the base currency no client value counts, and conversion is rounding alone. */
  lemma BaseCurrencyConvertsToItself(document: Option<string>, base: Option<string>, upper: string -> string, rate: Input,
                                     read: Reader, amount: real, places: nat)
    requires SameCurrency(document, base, upper)
    ensures DocumentRate(document, base, rate, read, upper) == Success(1.0)
    ensures Converted(amount, 1.0, places) == amount <==> Storable(amount, places)
  {
    QuantizeFixes(amount, places);
    assert Product(amount, 1.0) == amount;
  }

  // ---------------------------------------------------------------------------------------
  // Money
  // ---------------------------------------------------------------------------------------

  /** `int(d)` truncates toward zero. */
  function Truncate(x: real): int {
    if x >= 0.0 then x.Floor else -((-x).Floor)
  }

  /** `currency_precision`: `int` of an infinity raises `OverflowError`, which is not caught. */
  function CurrencyPrecision(configured: Input, read: Reader): (r: Result<nat, Problem>)
    ensures r.Success? ==> r.value <= MAX_CURRENCY_PRECISION
    ensures r.Failure? <==> !Blank(configured) && ToDecimal(configured, read).Success? && ToDecimal(configured, read).value.Infinity?
  {
    if Blank(configured) then Success(DEFAULT_CURRENCY_PRECISION)
    else
      match ToDecimal(configured, read)
      case Failure(_) => Success(DEFAULT_CURRENCY_PRECISION)
      case Success(NaN) => Success(DEFAULT_CURRENCY_PRECISION)
      case Success(Infinity(_)) => Failure(Overflow)
      case Success(Finite(x)) =>
        var places := Truncate(x);
        Success(if places < 0 then 0 else if places > MAX_CURRENCY_PRECISION then MAX_CURRENCY_PRECISION else places)
  }

  /** What a configured value means: truncated to whole places and held to 0..6; 2 if it is no number. */
  lemma PrecisionIs(configured: Input, read: Reader)
    ensures Blank(configured) ==> CurrencyPrecision(configured, read) == Success(2)
    ensures !Blank(configured) && (ToDecimal(configured, read).Failure? || ToDecimal(configured, read).value.NaN?) ==>
      CurrencyPrecision(configured, read) == Success(2)
    ensures !Blank(configured) && ToDecimal(configured, read).Success? && ToDecimal(configured, read).value.Finite? ==>
      var x := ToDecimal(configured, read).value.value;
      var places := CurrencyPrecision(configured, read);
      && places.Success?
      && (x < 1.0 ==> places.value == 0)
      && (1.0 <= x < 7.0 ==> places.value as real <= x < places.value as real + 1.0)
      && (7.0 <= x ==> places.value == 6)
  {
  }

  /** A configured whole number of places within range is used as it is. */
  lemma PrecisionInRange(places: nat, read: Reader)
    ensures CurrencyPrecision(Numeric(Finite(places as real)), read) == Success(places) <==> places <= MAX_CURRENCY_PRECISION
  {
  }

  /** `quantize_money`: not-a-number stays, an infinity cannot be quantized. */
  function QuantizeMoney(amount: Input, precision: Input, read: Reader): Result<Number, Problem> {
    match ToDecimal(amount, read)
    case Failure(problem) => Failure(problem)
    case Success(value) =>
      match CurrencyPrecision(precision, read)
      case Failure(problem) => Failure(problem)
      case Success(places) =>
        match value
        case Finite(x) => Success(Finite(Quantize(x, places)))
        case NaN => Success(NaN)
        case Infinity(_) => Failure(InvalidOperation)
  }

  /** How a value is read: blank is zero, numbers are themselves, text is trimmed first. */
  lemma AmountIs(value: Input, read: Reader)
    ensures value == Missing || value == Written("") ==> ToDecimal(value, read) == Success(Finite(0.0))
    ensures value.Numeric? ==> ToDecimal(value, read) == Success(value.number)
    ensures value.Flag? ==> ToDecimal(value, read) == Failure(NotANumber)
    ensures value.Written? && value.text != "" ==>
      ToDecimal(value, read) == if read(Text.Strip(value.text)).Some? then Success(read(Text.Strip(value.text)).value) else Failure(NotANumber)
  {
  }

  lemma PowersOfTen()
    ensures Scale(0) == 1 && Scale(1) == 10 && Scale(2) == 100 && Scale(3) == 1000
    ensures Scale(4) == 10000 && Scale(5) == 100000 && Scale(6) == 1000000
  {
  }

  /** `q` is `x` rounded half-up at this many places: a whole number of units, and no other is as good. */
  ghost predicate RoundedTo(x: real, q: real, places: nat) {
    exists k: int :: FromUnits(k, places) == q && IsHalfUp(x * Scale(places) as real, k)
  }

  lemma QuantizeIsRounded(x: real, q: real, places: nat)
    ensures q == Quantize(x, places) <==> RoundedTo(x, q, places)
  {
    var units := ToUnits(x, places);
    RoundIsHalfUp(units, RoundUnits(units));
    if k: int :| FromUnits(k, places) == q && IsHalfUp(x * Scale(places) as real, k) {
      RoundIsHalfUp(units, k);
    }
  }

  /**
   `quantize_money`: a finite amount becomes the multiple of one unit of the configured precision
   nearest to it, ties away from zero; what cannot be read, or rounded, is refused.
   */
  lemma QuantizeMoneyIs(amount: Input, precision: Input, read: Reader)
    ensures ToDecimal(amount, read).Failure? ==> QuantizeMoney(amount, precision, read) == Failure(NotANumber)
    ensures ToDecimal(amount, read).Success? && CurrencyPrecision(precision, read).Failure? ==>
      QuantizeMoney(amount, precision, read) == Failure(Overflow)
    ensures ToDecimal(amount, read).Success? && CurrencyPrecision(precision, read).Success? ==>
      match ToDecimal(amount, read).value
      case Finite(x) =>
        exists q :: QuantizeMoney(amount, precision, read) == Success(Finite(q)) && RoundedTo(x, q, CurrencyPrecision(precision, read).value)
      case NaN => QuantizeMoney(amount, precision, read) == Success(NaN)
      case Infinity(_) => QuantizeMoney(amount, precision, read) == Failure(InvalidOperation)
  {
    if ToDecimal(amount, read).Success? && ToDecimal(amount, read).value.Finite? && CurrencyPrecision(precision, read).Success? {
      var x, places := ToDecimal(amount, read).value.value, CurrencyPrecision(precision, read).value;
      QuantizeIsRounded(x, Quantize(x, places), places);
    }
  }

  /** For numbers as they come: a precision of 0 to 6 is used, a missing one is 2. */
  lemma MoneyAtPrecision(x: real, places: nat, read: Reader)
    requires places <= 6
    ensures var money := QuantizeMoney(Numeric(Finite(x)), Numeric(Finite(places as real)), read);
      money.Success? && money.value.Finite? && RoundedTo(x, money.value.value, places)
    ensures var money := QuantizeMoney(Numeric(Finite(x)), Missing, read);
      money.Success? && money.value.Finite? && RoundedTo(x, money.value.value, 2)
  {
    PrecisionInRange(places, read);
    QuantizeIsRounded(x, Quantize(x, places), places);
    QuantizeIsRounded(x, Quantize(x, 2), 2);
  }

  /** An amount of half a unit and more in a currency without minor unit. */
  lemma WholeUnits(read: Reader)
    ensures QuantizeMoney(Numeric(Finite(100.5)), Numeric(Finite(0.0)), read) == Success(Finite(101.0))
  {
    RoundIsHalfUp(100.5, 101);
    assert Scale(0) == 1;
  }

  // ---------------------------------------------------------------------------------------
  // Conversion
  // ---------------------------------------------------------------------------------------

  /** `Decimal` multiplication: an infinity times zero is an invalid operation. */
  function Multiply(x: Number, y: Number): Result<Number, Problem> {
    match (x, y)
    case (NaN, _) => Success(NaN)
    case (_, NaN) => Success(NaN)
    case (Finite(a), Finite(b)) => Success(Finite(Product(a, b)))
    case (Infinity(n), Finite(b)) => if b == 0.0 then Failure(InvalidOperation) else Success(Infinity(n != (b < 0.0)))
    case (Finite(a), Infinity(n)) => if a == 0.0 then Failure(InvalidOperation) else Success(Infinity(n != (a < 0.0)))
    case (Infinity(m), Infinity(n)) => Success(Infinity(m != n))
  }

  /** `convert_to_base` */
  function ConvertToBase(amount: Input, rate: Input, precision: Input, read: Reader): Result<Number, Problem> {
    match ToDecimal(amount, read)
    case Failure(problem) => Failure(problem)
    case Success(a) =>
      match ToDecimal(rate, read)
      case Failure(problem) => Failure(problem)
      case Success(r) =>
        match Multiply(a, r)
        case Failure(problem) => Failure(problem)
        case Success(product) => QuantizeMoney(Numeric(product), precision, read)
  }

  /**
   Finite operands convert to their exact product, rounded half-up at the configured precision;
   whatever fails to be read fails the conversion, and no infinity comes out of it.
   */
  lemma ConvertToBaseIs(amount: Input, rate: Input, precision: Input, read: Reader)
    ensures ToDecimal(amount, read).Failure? || ToDecimal(rate, read).Failure? ==>
      ConvertToBase(amount, rate, precision, read) == Failure(NotANumber)
    ensures
      (ToDecimal(amount, read).Success? && ToDecimal(amount, read).value.Finite?
       && ToDecimal(rate, read).Success? && ToDecimal(rate, read).value.Finite? && CurrencyPrecision(precision, read).Success?) ==>
      var a, r := ToDecimal(amount, read).value.value, ToDecimal(rate, read).value.value;
      var base := ConvertToBase(amount, rate, precision, read);
      && base.Success? && base.value.Finite? && RoundedTo(a * r, base.value.value, CurrencyPrecision(precision, read).value)
      && base.value.value == Converted(a, r, CurrencyPrecision(precision, read).value)
    ensures ConvertToBase(amount, rate, precision, read).Success? ==> !ConvertToBase(amount, rate, precision, read).value.Infinity?
  {
    if ToDecimal(amount, read).Success? && ToDecimal(rate, read).Success? && CurrencyPrecision(precision, read).Success? {
      var x, y := ToDecimal(amount, read).value, ToDecimal(rate, read).value;
      if x.Finite? && y.Finite? {
        var places := CurrencyPrecision(precision, read).value;
        QuantizeIsRounded(Product(x.value, y.value), Converted(x.value, y.value, places), places);
      }
    }
  }

  /** Money stored under a precision is a fixed point of storing it under that precision. */
  lemma QuantizeMoneyTwice(amount: Input, precision: Input, read: Reader)
    requires QuantizeMoney(amount, precision, read).Success?
    ensures QuantizeMoney(Numeric(QuantizeMoney(amount, precision, read).value), precision, read) ==
            QuantizeMoney(amount, precision, read)
  {
    var value, places := ToDecimal(amount, read).value, CurrencyPrecision(precision, read).value;
    if value.Finite? {
      QuantizeFixes(value.value, places);
      QuantizeFixes(Quantize(value.value, places), places);
    }
  }
}