/** Bus voltages in polar form and the trigonometric functions the
    power-flow equations use. */
module Phasor {

  /** A voltage phasor `mag * e^(j*angle)`, stored as its magnitude and angle. */
  datatype Polar = Polar(mag: real, angle: real)

  /** Sine and cosine are left uninterpreted: every result that mentions them
      holds for any pair of real functions. */
  datatype Trig = Trig(sin: real -> real, cos: real -> real)

  /** Which polar component a correction is added to. */
  datatype Component = Angle | Magnitude

  /** Adds `delta` to one component and keeps the other. */
  function Nudge(v: Polar, which: Component, delta: real): (w: Polar)
    ensures which == Angle ==> w.mag == v.mag && w.angle - v.angle == delta
    ensures which == Magnitude ==> w.angle == v.angle && w.mag - v.mag == delta
    ensures delta == 0.0 ==> w == v
  {
    match which
    case Angle => Polar(v.mag, v.angle + delta)
    case Magnitude => Polar(v.mag + delta, v.angle)
  }
}
