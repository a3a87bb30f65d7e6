/**
 * `get_size`: turns a byte count into a human-readable size with a binary
 * (1024-based) unit. The loop walks the prefixes "", K, M, G, T, P and divides
 * by 1024 until the value drops below 1024; if it never does, the function
 * falls off the end and yields `None`.
 *
 * The count is an `int` (negative counts are accepted, as in the source) and
 * the displayed magnitude is kept as an exact `real`; the two-decimal text of
 * the magnitude is supplied from outside (see `Text`).
 */
module HumanSize {

  import opened Wrappers

  /** The unit prefixes, in the order the loop tries them. */
  const Prefixes: seq<string> := ["", "K", "M", "G", "T", "P"]

  /** The magnitude to display and the index of its unit prefix. */
  datatype Size = Size(magnitude: real, unit: nat)

  /** 1024 to the power k. */
  function Pow(k: nat): (p: nat)
    ensures p >= 1
  {
    if k == 0 then 1 else 1024 * Pow(k - 1)
  }

  /** `b` divided by 1024 k times, exactly. */
  function Scale(b: int, k: nat): real {
    b as real / Pow(k) as real
  }

  /**
   * Unit k is the right one for `b`: `b` is below 1024^(k+1) and no smaller
   * unit was: `b` is at least 1024^j for every 0 < j <= k.
   */
  predicate IsUnitFor(b: int, k: nat) {
    && b < Pow(k + 1)
    && forall j: nat :: 0 < j <= k ==> Pow(j) <= b
  }

  lemma {:induction false} PowMonotone(i: nat, j: nat)
    requires i <= j
    ensures Pow(i) <= Pow(j)
  {
    if i < j {
      PowMonotone(i, j - 1);
    }
  }

  /** The unit search started at prefix k, after k divisions. */
  function FirstFit(b: int, k: nat): (r: Option<Size>)
    requires k <= |Prefixes|
    requires forall j: nat :: 0 < j <= k ==> Pow(j) <= b
    ensures r.None? <==> Pow(|Prefixes|) <= b
    ensures r.Some? ==> k <= r.value.unit < |Prefixes|
    ensures r.Some? ==> IsUnitFor(b, r.value.unit) && r.value.magnitude == Scale(b, r.value.unit)
    decreases |Prefixes| - k
  {
    if k == |Prefixes| then None
    else if b < Pow(k + 1) then
      PowMonotone(k + 1, |Prefixes|);
      Some(Size(Scale(b, k), k))
    else FirstFit(b, k + 1)
  }

  /**
   * What `get_size(b)` displays: the first unit whose scaled value is below
   * 1024, or `None` when `b` reaches 1024^6 and every prefix is exhausted.
   */
  function SizeOf(b: int): (r: Option<Size>)
    ensures r.None? <==> Pow(6) <= b
    ensures r.Some? ==> r.value.unit < |Prefixes| && IsUnitFor(b, r.value.unit)
    ensures r.Some? ==> r.value.magnitude == Scale(b, r.value.unit)
  {
    FirstFit(b, 0)
  }

  /** A unit that fits is the only one: the least k with b < 1024^(k+1). */
  lemma UnitIsUnique(b: int, k: nat, k': nat)
    requires IsUnitFor(b, k) && IsUnitFor(b, k')
    ensures k == k'
  {
  }

  lemma DivideOnce(x: real, p: real)
    requires p > 0.0
    ensures x / p / 1024.0 == x / (1024.0 * p)
  {

  }

  lemma BelowIff(x: real, p: real)
    requires p > 0.0
    ensures x / p < 1024.0 <==> x < 1024.0 * p
  {

  }

  /**
   * The loop of `get_size`: divide by 1024 until the value is below 1024,
   * trying at most the six prefixes.
   */
  method GetSize(bytes: int) returns (r: Option<Size>)
    ensures r == SizeOf(bytes)
  {
    var value := bytes as real;
    var k := 0;
    while k < |Prefixes|
      invariant k <= |Prefixes|
      invariant forall j: nat :: 0 < j <= k ==> Pow(j) <= bytes
      invariant value == Scale(bytes, k)
      invariant FirstFit(bytes, k) == SizeOf(bytes)
    {
      BelowIff(bytes as real, Pow(k) as real);
      if value < 1024.0 {
        return Some(Size(value, k));
      }
      DivideOnce(bytes as real, Pow(k) as real);
      value := value / 1024.0;
      k := k + 1;
    }
    return None;
  }

  /** Counts below 1024, negative ones included, keep the empty prefix and are not divided. */
  lemma SmallCountUnscaled(b: int)
    requires b < 1024
    ensures SizeOf(b) == Some(Size(b as real, 0))
  {
  }

  /** Scaling back by 1024^k gives the byte count again. */
  lemma MagnitudeReconstructs(b: int)
    requires SizeOf(b).Some?
    ensures SizeOf(b).value.magnitude * Pow(SizeOf(b).value.unit) as real == b as real
  {
  }

  /**
   * For a non-negative count the displayed magnitude lies in [0, 1024), and it
   * is at least 1 whenever a prefix other than "" was chosen.
   */
  lemma MagnitudeInRange(b: int)
    requires 0 <= b && SizeOf(b).Some?
    ensures 0.0 <= SizeOf(b).value.magnitude < 1024.0
    ensures SizeOf(b).value.unit > 0 ==> 1.0 <= SizeOf(b).value.magnitude
  {

  }

  /** A larger byte count never gets a smaller unit. */
  lemma UnitMonotone(b: int, b': int)
    requires b <= b' && SizeOf(b').Some?
    ensures SizeOf(b).Some? && SizeOf(b).value.unit <= SizeOf(b').value.unit
  {
  }

  /** Worked values of the unit choice. */
  lemma Examples()
    ensures SizeOf(0) == Some(Size(0.0, 0))
    ensures SizeOf(1024) == Some(Size(1.0, 1))
    ensures SizeOf(1536) == Some(Size(1.5, 1))
    ensures SizeOf(1024 * 1024 * 1024) == Some(Size(1.0, 3))
    ensures SizeOf(Pow(6)) == None
  {
  }

  /**
   * The text `f"{bytes:.2f}{unit}B"`. The two-decimal rendering of the
   * magnitude is not modelled; `digits` stands for it.
   */
  function Text(s: Size, digits: string): (t: string)
    requires s.unit < |Prefixes|
    ensures |t| >= 1 && t[|t| - 1] == 'B'
    ensures t[..|t| - 1] == digits + Prefixes[s.unit]
  {
    digits + Prefixes[s.unit] + "B"
  }

  /** Recovers the unit index from the tail of a size text. */
  function UnitOfText(t: string): Option<nat> {
    if |t| < 2 || t[|t| - 1] != 'B' then None
    else
      var c := t[|t| - 2];
      if c == 'K' then Some(1)
      else if c == 'M' then Some(2)
      else if c == 'G' then Some(3)
      else if c == 'T' then Some(4)
      else if c == 'P' then Some(5)
      else if '0' <= c <= '9' then Some(0)
      else None
  }

  /**
   * When the rendered magnitude ends in a digit, the unit can be read back
   * from the text, so text and magnitude together give back the byte count.
   */
  lemma TextRoundTrip(b: int, digits: string)
    requires SizeOf(b).Some?
    requires |digits| >= 1 && '0' <= digits[|digits| - 1] <= '9'
    ensures UnitOfText(Text(SizeOf(b).value, digits)) == Some(SizeOf(b).value.unit)
  {

  }
}
