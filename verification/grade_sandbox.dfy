/**
 * The predictive grade sandbox (components/performance/predictive-grade-sandbox.tsx):
 * three sliders say what share (0-100 %, in steps of 10) of the marks lost
 * to concept, calculation and keyword errors the student would win back,
 * and the projected score is the current grade plus the recovered marks,
 * rounded and capped at the exam's maximum.
 */
module GradeSandbox {
  import opened Numbers

  /** The marks lost per category on the latest exam, the grade obtained and the maximum. */
  datatype Stats = Stats(concept: real, calculation: real, keyword: real,
                         currentGrade: real, maxScore: real)

  /** The three slider positions, in percent. */
  datatype Improvement = Improvement(concept: int, calculation: int, keyword: int)

  datatype Category = Concept | Calculation | Keyword

  /** A position the sliders allow: 0 to 100 in steps of 10. */
  predicate IsSliderValue(v: int) {
    0 <= v <= 100 && v % 10 == 0
  }

  predicate IsValidImprovement(i: Improvement) {
    IsSliderValue(i.concept) && IsSliderValue(i.calculation) && IsSliderValue(i.keyword)
  }

  /** The sliders' starting position, and what Reset returns to. */
  const NoImprovement: Improvement := Improvement(0, 0, 0)

  /** Marks won back: each category's lost marks times its slider share. */
  function Recovered(s: Stats, i: Improvement): real {
    Share(s.concept, i.concept) + Share(s.calculation, i.calculation) + Share(s.keyword, i.keyword)
  }

  /** `lost * (percent / 100)`. */
  function Share(lost: real, percent: int): real {
    lost * (percent as real / 100.0)
  }

  /** `calculateProjectedScore`: `min(maxScore, round(currentGrade + recovered))`. */
  function ProjectedScore(s: Stats, i: Improvement): (r: real)
    ensures r <= s.maxScore && r <= Round(s.currentGrade + Recovered(s, i)) as real
    ensures r == s.maxScore || r == Round(s.currentGrade + Recovered(s, i)) as real
    ensures r < s.maxScore ==> r == Round(s.currentGrade + Recovered(s, i)) as real
  {
    var rounded := Round(s.currentGrade + Recovered(s, i)) as real;
    if s.maxScore <= rounded then s.maxScore else rounded
  }

  /** The marks the projection adds to the current grade. */
  function Gain(s: Stats, i: Improvement): real {
    ProjectedScore(s, i) - s.currentGrade
  }

  /** The "+N Marks" badge is shown exactly when the projection beats the current grade. */
  predicate ShowsGainBadge(s: Stats, i: Improvement) {
    Gain(s, i) > 0.0
  }

  /** With every slider at 0 a whole-mark grade within the maximum is projected unchanged. */
  lemma NoImprovementKeepsGrade(s: Stats, grade: int)
    requires s.currentGrade == grade as real && s.currentGrade <= s.maxScore
    ensures ProjectedScore(s, NoImprovement) == s.currentGrade
    ensures !ShowsGainBadge(s, NoImprovement)
  {
    assert Recovered(s, NoImprovement) == 0.0;
    RoundInteger(grade);
  }

  /** Moving any slider up never lowers the projection, when no category has negative losses. */
  lemma ProjectionMonotone(s: Stats, a: Improvement, b: Improvement)
    requires s.concept >= 0.0 && s.calculation >= 0.0 && s.keyword >= 0.0
    requires a.concept <= b.concept && a.calculation <= b.calculation && a.keyword <= b.keyword
    ensures ProjectedScore(s, a) <= ProjectedScore(s, b)
  {
    var ra := Recovered(s, a);
    var rb := Recovered(s, b);
    ScaleMonotone(s.concept, a.concept, b.concept);
    ScaleMonotone(s.calculation, a.calculation, b.calculation);
    ScaleMonotone(s.keyword, a.keyword, b.keyword);
    assert ra <= rb;
    RoundMonotone(s.currentGrade + Recovered(s, a), s.currentGrade + Recovered(s, b));
  }

  lemma ScaleMonotone(lost: real, p: int, q: int)
    requires lost >= 0.0 && p <= q
    ensures Share(lost, p) <= Share(lost, q)
  {
    var d := q as real / 100.0 - p as real / 100.0;
    assert d >= 0.0;
    assert lost * (q as real / 100.0) == lost * (p as real / 100.0) + lost * d;
  }

  /** With every slider at 100 the projection recovers all lost marks, up to the maximum. */
  lemma FullImprovement(s: Stats)
    ensures Recovered(s, Improvement(100, 100, 100)) == s.concept + s.calculation + s.keyword
  {
  }

  /** Dragging one slider: only that category's share changes. */
  function SetSlider(i: Improvement, c: Category, v: int): (r: Improvement)
    ensures c == Concept ==> r == Improvement(v, i.calculation, i.keyword)
    ensures c == Calculation ==> r == Improvement(i.concept, v, i.keyword)
    ensures c == Keyword ==> r == Improvement(i.concept, i.calculation, v)
  {
    match c
    case Concept => i.(concept := v)
    case Calculation => i.(calculation := v)
    case Keyword => i.(keyword := v)
  }

  /** Slider moves and Reset keep every share a valid slider position. */
  lemma SliderMovesStayValid(i: Improvement, c: Category, v: int)
    requires IsValidImprovement(i) && IsSliderValue(v)
    ensures IsValidImprovement(SetSlider(i, c, v))
    ensures IsValidImprovement(NoImprovement)
  {
  }
}
