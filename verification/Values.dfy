/** The small value types of a signal description: unit, range, post scaling and resolution. Each
    is composed into, and parsed from, an object whose members are all optional. Doubles are reals;
    the lowest and the highest double, which stand for "no limit", are the constructor Unlimited. */
module Values {
  import opened Words

  const UNIT_ID_NONE: int := -1
  const UNIT_ID_SECONDS: int := 5457219
  const QUANTITY_TIME: string := "time"

  datatype UnitPatch = UnitPatch(id: Option<int>, displayName: Option<string>, quantity: Option<string>)

  datatype Unit = Unit(id: int, displayName: string, quantity: string) {
    function Compose(): UnitPatch {
      if id == UNIT_ID_NONE then UnitPatch(None, None, None) else
        UnitPatch(Some(id), Some(displayName), if quantity == "" then None else Some(quantity))
    }

    function Parse(p: UnitPatch): Unit {
      Unit(p.id.GetOr(id), p.displayName.GetOr(displayName), p.quantity.GetOr(quantity))
    }
  }

  const NO_UNIT := Unit(UNIT_ID_NONE, "", "")

  datatype Bound = Unlimited | Limit(value: real)

  datatype RangePatch = RangePatch(low: Option<real>, high: Option<real>)

  datatype Range = Range(low: Bound, high: Bound) {
    function Compose(): RangePatch {
      RangePatch(if low.Limit? then Some(low.value) else None, if high.Limit? then Some(high.value) else None)
    }

    function Parse(p: RangePatch): Range {
      Range(if p.low.Some? then Limit(p.low.value) else low, if p.high.Some? then Limit(p.high.value) else high)
    }
  }

  const NO_RANGE := Range(Unlimited, Unlimited)

  datatype ScalingPatch = ScalingPatch(offset: Option<real>, scale: Option<real>)

  datatype PostScaling = PostScaling(offset: real, scale: real) {
    predicate IsOneToOne() {
      offset == 0.0 && scale == 1.0
    }

    function Compose(): ScalingPatch {
      if IsOneToOne() then ScalingPatch(None, None) else ScalingPatch(Some(offset), Some(scale))
    }

    function Parse(p: ScalingPatch): PostScaling {
      PostScaling(p.offset.GetOr(offset), p.scale.GetOr(scale))
    }
  }

  const ONE_TO_ONE := PostScaling(0.0, 1.0)

  datatype ResolutionPatch = ResolutionPatch(numerator: Option<Word64>, denominator: Option<Word64>) {
    predicate HasZero() {
      numerator == Some(0) || denominator == Some(0)
    }
  }

  datatype Resolution = Resolution(numerator: Word64, denominator: Word64) {
    function Compose(): ResolutionPatch {
      ResolutionPatch(Some(numerator), Some(denominator))
    }

    /** A zero leaves the resolution as it is. */
    function Parse(p: ResolutionPatch): Resolution {
      if p.HasZero() then this else Resolution(p.numerator.GetOr(numerator), p.denominator.GetOr(denominator))
    }

    /** The parse result: -1 on a zero, 1 when something was given, 0 otherwise. */
    function ParseResult(p: ResolutionPatch): int {
      if p.HasZero() then -1 else if p.numerator.Some? || p.denominator.Some? then 1 else 0
    }
  }

  const UNIT_RESOLUTION := Resolution(1, 1)

  /** Composing a value and parsing it into a fresh receiver returns the value: always for range
      and scaling, for a unit exactly when it has an id or is no unit at all, for a resolution
      exactly when neither number is zero. */
  lemma ComposeParse(u: Unit, r: Range, s: PostScaling, q: Resolution)
    ensures NO_RANGE.Parse(r.Compose()) == r
    ensures ONE_TO_ONE.Parse(s.Compose()) == s
    ensures NO_UNIT.Parse(u.Compose()) == u <==> u.id != UNIT_ID_NONE || u == NO_UNIT
    ensures UNIT_RESOLUTION.Parse(q.Compose()) == q <==> q.numerator != 0 && q.denominator != 0
  {
  }

  /** What a value signal has besides its type. */
  datatype Attributes = Attributes(unit: Unit, range: Range, scaling: PostScaling) {
    /** After `own` was composed into a description and parsed by a receiver that has these. */
    function Told(own: Attributes): Attributes {
      Attributes(unit.Parse(own.unit.Compose()), range.Parse(own.range.Compose()), scaling.Parse(own.scaling.Compose()))
    }
  }

  const NO_ATTRIBUTES := Attributes(NO_UNIT, NO_RANGE, ONE_TO_ONE)

  /** A receiver ends up with the attributes it is told if and only if it has nothing that cannot be
      taken back: no unit, no quantity, no limit and no scaling are not mentioned in a description,
      so they are told only to a receiver that has none either. */
  lemma ToldIff(own: Attributes, seen: Attributes)
    ensures seen.Told(own) == own <==>
              && (own.unit.id == UNIT_ID_NONE ==> seen.unit == own.unit)
              && (own.unit.id != UNIT_ID_NONE && own.unit.quantity == "" ==> seen.unit.quantity == "")
              && (own.range.low.Unlimited? ==> seen.range.low.Unlimited?)
              && (own.range.high.Unlimited? ==> seen.range.high.Unlimited?)
              && (own.scaling.IsOneToOne() ==> seen.scaling.IsOneToOne())
  {
  }

  // ------------------------------------------------------------ last writer wins

  /** The last value that was written, or `init` when none was. */
  function LastWrite<T>(init: T, writes: seq<Option<T>>): T {
    if writes == [] then init
    else if writes[|writes| - 1].Some? then writes[|writes| - 1].value
    else LastWrite(init, writes[..|writes| - 1])
  }

  function Written<P, T>(ps: seq<P>, field: P -> Option<T>): (w: seq<Option<T>>)
    ensures |w| == |ps| && forall i :: 0 <= i < |ps| ==> w[i] == field(ps[i])
  {
    seq(|ps|, i requires 0 <= i < |ps| => field(ps[i]))
  }

  lemma {:induction false} LastWriteFirst<P, T>(init: T, p: P, ps: seq<P>, field: P -> Option<T>)
    ensures LastWrite(init, Written([p] + ps, field)) == LastWrite(field(p).GetOr(init), Written(ps, field))
  {
    var w := Written([p] + ps, field);
    if ps == [] {
      assert w == [field(p)] && w[..0] == [];
    } else {
      var init' := ps[..|ps| - 1];
      LastWriteFirst(init, p, init', field);
      assert w[..|w| - 1] == Written([p] + init', field);
      assert Written(ps, field)[..|ps| - 1] == Written(init', field);
    }
  }
}
