/**
 * The outcome of resolving a local (wall-clock) value through a zone:
 * no instant (a gap), one instant, or two boundary instants (a fold),
 * with its projections and its `map`.
 */
module LocalResults {
  import opened Wrappers

  datatype LocalResult<T> =
    | None                      // the local value falls in a gap
    | Single(value: T)          // exactly one result
    | Ambiguous(min: T, max: T) // a fold: the earliest and the latest result
  {
    /** `single`: the result only when it is unique. */
    function ToSingle(): (r: Option<T>)
      ensures r.Some? <==> Single?
      ensures r.Some? ==> this == Single(r.value)
    {
      match this
      case Single(t) => Some(t)
      case _ => Option.None
    }

    /** `earliest`: the unique result, or the lower end of a fold. */
    function Earliest(): (r: Option<T>)
      ensures r.None? <==> None?
      ensures Single? ==> r == Some(value)
      ensures Ambiguous? ==> r == Some(min)
    {
      match this
      case Single(t) => Some(t)
      case Ambiguous(t, _) => Some(t)
      case None => Option.None
    }

    /** `latest`: the unique result, or the upper end of a fold. */
    function Latest(): (r: Option<T>)
      ensures r.None? <==> None?
      ensures Single? ==> r == Some(value)
      ensures Ambiguous? ==> r == Some(max)
    {
      match this
      case Single(t) => Some(t)
      case Ambiguous(_, t) => Some(t)
      case None => Option.None
    }

    /** `map`: applies `f` to every candidate, keeping the variant. */
    function Map<U>(f: T -> U): (r: LocalResult<U>)
      ensures r.None? == None? && r.Single? == Single? && r.Ambiguous? == Ambiguous?
      ensures Single? ==> r.value == f(value)
      ensures Ambiguous? ==> r.min == f(min) && r.max == f(max)
    {
      match this
      case None => LocalResult.None
      case Single(v) => Single(f(v))
      case Ambiguous(lo, hi) => Ambiguous(f(lo), f(hi))
    }

    /** `unwrap`: a gap ("No such local time") and a fold ("Ambiguous local
        time") are both panics, so the caller must hold a unique result. */
    function Unwrap(): (r: T)
      requires Single?
      ensures ToSingle() == Some(r) && Earliest() == Some(r) && Latest() == Some(r)
    {
      value
    }

    /** `x` is one of the candidates. */
    ghost predicate Contains(x: T)
    {
      match this
      case None => false
      case Single(t) => t == x
      case Ambiguous(lo, hi) => lo == x || hi == x
    }
  }

  /** A unique result is what all three projections agree on. */
  lemma SingleIsUnanimous<T>(r: LocalResult<T>)
    ensures r.ToSingle().Some? ==> r.Earliest() == r.ToSingle() && r.Latest() == r.ToSingle()
    ensures r.Earliest() != r.Latest() ==> r.Ambiguous?
  {
  }

  /** Every projection of a result is a candidate of it, and every
      candidate of a non-empty result is its earliest or its latest. */
  lemma ProjectionsAreCandidates<T>(r: LocalResult<T>, x: T)
    ensures r.ToSingle() == Some(x) ==> r.Contains(x)
    ensures r.Earliest() == Some(x) ==> r.Contains(x)
    ensures r.Latest() == Some(x) ==> r.Contains(x)
    ensures r.Contains(x) <==> r.Earliest() == Some(x) || r.Latest() == Some(x)
  {
  }

  lemma MapIdentity<T>(r: LocalResult<T>)
    ensures r.Map(x => x) == r
  {
  }

  lemma MapCompose<T, U, V>(r: LocalResult<T>, f: T -> U, g: U -> V)
    ensures r.Map(f).Map(g) == r.Map(x => g(f(x)))
  {
  }

  /** `map` commutes with the three projections. */
  lemma MapCommutesWithProjections<T, U>(r: LocalResult<T>, f: T -> U, x: T)
    ensures r.Map(f).ToSingle() == (if r.Single? then Some(f(r.value)) else Option.None)
    ensures r.Map(f).Earliest().Some? == r.Earliest().Some?
    ensures r.Earliest().Some? ==> r.Map(f).Earliest().value == f(r.Earliest().value)
    ensures r.Latest().Some? ==> r.Map(f).Latest().value == f(r.Latest().value)
    ensures r.Contains(x) ==> r.Map(f).Contains(f(x))
  {
  }
}
