/** The record shapes of src/common.ts and the small value types the engine
    computes with. */
module Common {

  datatype Option<T> = None | Some(value: T)

  /** A count that may be `Infinity`, as `Math.min(x || Infinity, ...)`
      produces when there is no candidate. */
  datatype ExtNat = Fin(n: nat) | Inf

  predicate ExtLe(a: ExtNat, b: ExtNat) {
    match (a, b)
    case (_, Inf) => true
    case (Inf, Fin(_)) => false
    case (Fin(x), Fin(y)) => x <= y
  }

  function ExtMin(a: ExtNat, b: ExtNat): (r: ExtNat)
    ensures ExtLe(r, a) && ExtLe(r, b)
    ensures r == a || r == b
  {
    if ExtLe(a, b) then a else b
  }

  /** A JavaScript number as `price / peopleCount` can produce it: a finite
      value, `Infinity` (a positive price over zero people) or `NaN` (zero
      over zero). Kept exact with `real`. */
  datatype JsNumber = Finite(r: real) | PosInfinity | NaN

  /** One occurrence of a concerning word (`ConcerningMatch`,
      src/common.ts:17-21): before the sentence is filled in, `index` is the
      position in the description; afterwards it is relative to the
      sentence. */
  datatype ConcerningMatch = ConcerningMatch(index: int, concerningText: string, concerningSentence: Option<string>)

  /** `LinkInfo` (src/common.ts:3-15), one record of the listing store. */
  datatype LinkInfo = LinkInfo(
    title: Option<string>,
    email: Option<string>,
    concerningTexts: Option<seq<ConcerningMatch>>,
    price: Option<nat>,
    peopleCount: Option<ExtNat>,
    roomPrice: Option<JsNumber>,
    bedroomCount: Option<nat>,
    suitable: Option<bool>,
    responded: Option<bool>,
    distance: int,
    hasDetails: bool)

  /** The record `scanLinks` creates for a newly discovered link. */
  function NewLinkInfo(distance: int): (r: LinkInfo)
    ensures r.distance == distance && !r.hasDetails
    ensures r.title.None? && r.email.None? && r.concerningTexts.None? && r.price.None?
    ensures r.peopleCount.None? && r.roomPrice.None? && r.bedroomCount.None?
    ensures r.suitable.None? && r.responded.None?
  {
    LinkInfo(None, None, None, None, None, None, None, None, None, distance, false)
  }

  /** Extending a prefix of `b` by one element, behind `a`. */
  lemma PrefixSnoc<T>(a: seq<T>, b: seq<T>, j: nat)
    requires j < |b|
    ensures a + b[..j + 1] == (a + b[..j]) + [b[j]]
  {
    assert b[..j + 1] == b[..j] + [b[j]];
  }

  /** Appending to a sequence that starts with `a` keeps it starting with
      `a` and appends to what follows. */
  lemma PrefixGrows<T>(a: seq<T>, b: seq<T>, x: T)
    requires |a| <= |b| && b[..|a|] == a
    ensures (b + [x])[..|a|] == a && (b + [x])[|a|..] == b[|a|..] + [x]
  {
    assert (b + [x])[..|a|] == b[..|a|];
  }
}
