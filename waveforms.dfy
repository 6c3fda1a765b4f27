/**
 * Waveforms of test_spec.py: a form and its coefficients give the value a
 * control signal is driven to, or the value a monitored signal is expected to
 * have, as a function of the time elapsed since the step began.
 */
module Waveforms {
  import opened Outcomes

  /** signal_form */
  datatype Form = NotDefined | Constant | Pwm | Line | Parabola | Root | Hyperbola | Exponenta | Sinus

  /** `form.value` */
  function FormValue(f: Form): int
  {
    match f
    case NotDefined => 0
    case Constant => 1
    case Pwm => 2
    case Line => 3
    case Parabola => 4
    case Root => 5
    case Hyperbola => 6
    case Exponenta => 7
    case Sinus => 8
  }

  /** The forms in the order of their numbers. */
  const Forms: seq<Form> := [NotDefined, Constant, Pwm, Line, Parabola, Root, Hyperbola, Exponenta, Sinus]

  /** `signal_form(v)`: raises ValueError for a number that names no form. */
  function FormFromValue(v: int): (r: Result<Form>)
    ensures r.Ok? <==> 0 <= v <= 8
    ensures r.Ok? ==> FormValue(r.value) == v
    ensures !r.Ok? ==> r == Err(InvalidEnumValue(v))
  {
    if 0 <= v < |Forms| then Ok(Forms[v]) else Err(InvalidEnumValue(v))
  }

  lemma FormRoundTrip(f: Form)
    ensures FormFromValue(FormValue(f)) == Ok(f)
  {
  }

  /** The forms whose evaluation raises 'Not implemented'. */
  predicate Reserved(f: Form)
  {
    f.Pwm? || f.Parabola? || f.Root? || f.Hyperbola? || f.Exponenta? || f.Sinus?
  }

  /**
   * `control_signal.calculate_reference` and `monitored_signal.calculate_estimation`
   * (the two are the same dispatch). `Ok(None)` is the `None` a NOT_DEFINED form
   * returns; a missing coefficient is the IndexError of `coef[...]`.
   */
  function Evaluate(form: Form, coef: seq<real>, timestampMs: real): (r: Result<Option<real>>)
    ensures r == Err(UnsupportedWaveform) <==> Reserved(form)
    ensures r == Ok(None) <==> form == NotDefined
    ensures r == Err(CoefficientMissing) <==>
              (form == Constant && |coef| < 1) || (form == Line && |coef| < 2)
    ensures r.Ok? && r.value.Some? <==>
              (form == Constant && |coef| >= 1) || (form == Line && |coef| >= 2)
  {
    match form
    case NotDefined => Ok(None)
    case Constant =>
      if |coef| < 1 then Err(CoefficientMissing) else Ok(Some(coef[0]))
    case Line =>
      if |coef| < 2 then Err(CoefficientMissing)
      else Ok(Some(coef[0] * timestampMs / 1000.0 + coef[1]))
    case _ => Err(UnsupportedWaveform)
  }

  /** A CONSTANT waveform has its amplitude at every instant. */
  lemma ConstantIsFlat(coef: seq<real>, t: real)
    requires |coef| >= 1
    ensures Evaluate(Constant, coef, t) == Ok(Some(coef[0]))
  {
  }

  /** A LINE waveform starts at its offset and rises by its slope per second. */
  lemma LineIsAffine(coef: seq<real>, t1: real, t2: real)
    requires |coef| >= 2
    ensures Evaluate(Line, coef, 0.0) == Ok(Some(coef[1]))
    ensures Evaluate(Line, coef, t2).value.value - Evaluate(Line, coef, t1).value.value
            == coef[0] * (t2 - t1) / 1000.0
  {
  }
}
