/**
 * The font-size limits shared by both viewers: sizes are percentages kept
 * within [MinFontSize, MaxFontSize].
 */
module FontSize {

  const MinFontSize: int := 50
  const MaxFontSize: int := 200
  /** The size a viewer starts with. */
  const DefaultFontSize: int := 100

  predicate InRange(size: int) {
    MinFontSize <= size <= MaxFontSize
  }

  /**
   * `changeFontSize` of the reader component: `Math.min(Math.max(50, prev + delta), 200)`.
   */
  function ChangeFontSize(prev: int, delta: int): (r: int)
    ensures InRange(r)
    ensures r == prev + delta <==> InRange(prev + delta)
    ensures prev + delta < MinFontSize ==> r == MinFontSize
    ensures prev + delta > MaxFontSize ==> r == MaxFontSize
  {
    var raised := if MinFontSize < prev + delta then prev + delta else MinFontSize;
    if raised < MaxFontSize then raised else MaxFontSize
  }

  /**
   * `handleFontSizeChange` of the book viewer: `Math.max(50, Math.min(200, value))`.
   */
  function ClampFontSize(value: int): (r: int)
    ensures InRange(r)
    ensures r == value <==> InRange(value)
    ensures value < MinFontSize ==> r == MinFontSize
    ensures value > MaxFontSize ==> r == MaxFontSize
  {
    var lowered := if value < MaxFontSize then value else MaxFontSize;
    if MinFontSize < lowered then lowered else MinFontSize
  }

  /** Clamping twice is clamping once. */
  lemma ClampIdempotent(value: int)
    ensures ClampFontSize(ClampFontSize(value)) == ClampFontSize(value)
  {
  }

  /**
   * The two viewers clamp alike: the min-of-max and the max-of-min orders agree
   * because the lower bound does not exceed the upper one.
   */
  lemma ChangeIsClampOfSum(prev: int, delta: int)
    ensures ChangeFontSize(prev, delta) == ClampFontSize(prev + delta)
  {
  }
}
