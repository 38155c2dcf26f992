/** The process-parameter arithmetic of a printing `Node`: the setters of
    `robot_velocity`, `extrusion_rate` and `path_profile`, which derive one
    quantity from the others through the nozzle size. Quantities are reals
    (no rounding); a printed warning is a returned flag.

    The setters work on four instance fields (`_path_width`, `_path_height`,
    `_extrusion_rate`, `_robot_velocity`) that the constructor never assigns,
    so each field has three states: never assigned (reading it raises
    AttributeError), holding `None` (arithmetic on it raises TypeError), or
    holding a number. */
module ProcessParameters {
  import opened PyValues

  /** The nozzle diameter, in metres. */
  const Nozzle: real := 0.007

  /** The bounds the path-profile setter checks a derived width or height
      against. */
  const MinWidth: real := 0.007
  const MaxWidth: real := 0.014
  const MinHeight: real := 0.002
  const MaxHeight: real := 0.007

  /** One of the four instance fields. */
  datatype Slot = Unassigned | Null | Num(r: real)

  datatype Process = Process(width: Slot, height: Slot, extrusion: Slot, velocity: Slot)

  /** The fields of a node just built: none assigned. */
  const Fresh: Process := Process(Unassigned, Unassigned, Unassigned, Unassigned)

  /** The robot velocity (mm/s) that lays a bead `w` by `h` at extrusion rate
      `e`: the bead volume over the nozzle length, divided by the rate. */
  function VelocityOf(w: real, h: real, e: real): real
    requires e != 0.0
  {
    ((w * h * Nozzle * 1000.0) / e * 1000.0) / 60.0
  }

  /** The extrusion rate the extrusion setter derives from `w`, `h` and the
      velocity `v`. */
  function ExtrusionOf(w: real, h: real, v: real): real
    requires v != 0.0
  {
    (w * h * Nozzle * 1000.0) / ((v * 1000.0) / 60.0)
  }

  /** The bead cross-section the path-profile setter derives from velocity
      `v` and extrusion rate `e`. */
  function AreaOf(v: real, e: real): real {
    (((v / 1000.0) * 60.0) * e / 1000.0) / Nozzle
  }

  /** `a * b` on two fields: reading an unassigned field raises before the
      product is taken; a `None` operand makes the product raise. */
  function Product(a: Slot, b: Slot): (r: Result<real>)
    ensures r.Ok? <==> a.Num? && b.Num?
    ensures r.Ok? ==> r.value == a.r * b.r
    ensures (a.Unassigned? || b.Unassigned?) ==> r == Err(AttributeError)
    ensures !a.Unassigned? && !b.Unassigned? && (a.Null? || b.Null?) ==> r == Err(TypeError)
  {
    if a.Unassigned? || b.Unassigned? then Err(AttributeError)
    else if a.Null? || b.Null? then Err(TypeError)
    else Ok(a.r * b.r)
  }

  /** A field used as a divisor. */
  function Divisor(s: Slot): (r: Result<real>)
    ensures r.Ok? <==> s.Num? && s.r != 0.0
    ensures r.Ok? ==> r.value == s.r
    ensures s.Unassigned? ==> r == Err(AttributeError)
    ensures s.Null? ==> r == Err(TypeError)
    ensures s == Num(0.0) ==> r == Err(ZeroDivisionError)
  {
    match s
    case Unassigned => Err(AttributeError)
    case Null => Err(TypeError)
    case Num(x) => if x == 0.0 then Err(ZeroDivisionError) else Ok(x)
  }

  /** The `robot_velocity` setter. A value is stored as given; with `None`
      the velocity is derived from width, height and extrusion rate. */
  function SetVelocity(p: Process, value: Option<real>): (r: Result<Process>)
    ensures value.Some? ==> r == Ok(p.(velocity := Num(value.value)))
    ensures value.None? ==>
      (r.Ok? <==> p.width.Num? && p.height.Num? && p.extrusion.Num? && p.extrusion.r != 0.0)
    ensures value.None? && r.Ok? ==>
      r.value == p.(velocity := Num(VelocityOf(p.width.r, p.height.r, p.extrusion.r)))
    ensures value.None? && (p.width.Unassigned? || p.height.Unassigned?) ==> r == Err(AttributeError)
    ensures value.None? && p.width.Num? && p.height.Num? && p.extrusion == Num(0.0) ==> r == Err(ZeroDivisionError)
  {
    if value.Some? then Ok(p.(velocity := Num(value.value)))
    else
      var _ :- Product(p.width, p.height);
      var e :- Divisor(p.extrusion);
      Ok(p.(velocity := Num(VelocityOf(p.width.r, p.height.r, e))))
  }

  /** The `extrusion_rate` setter. A value is stored as given; with `None`
      the rate is derived from width, height and robot velocity. */
  function SetExtrusion(p: Process, value: Option<real>): (r: Result<Process>)
    ensures value.Some? ==> r == Ok(p.(extrusion := Num(value.value)))
    ensures value.None? ==>
      (r.Ok? <==> p.width.Num? && p.height.Num? && p.velocity.Num? && p.velocity.r != 0.0)
    ensures value.None? && r.Ok? ==>
      r.value == p.(extrusion := Num(ExtrusionOf(p.width.r, p.height.r, p.velocity.r)))
    ensures value.None? && (p.width.Unassigned? || p.height.Unassigned?) ==> r == Err(AttributeError)
    ensures value.None? && p.width.Num? && p.height.Num? && p.velocity == Num(0.0) ==> r == Err(ZeroDivisionError)
  {
    if value.Some? then Ok(p.(extrusion := Num(value.value)))
    else
      var _ :- Product(p.width, p.height);
      var v :- Divisor(p.velocity);
      Ok(p.(extrusion := Num(ExtrusionOf(p.width.r, p.height.r, v))))
  }

  /** The `robot_velocity` getter, as the path-profile setter reads it. When
      width, height and rate are all numbers and the velocity is `None`, the
      getter calls itself without end. Otherwise it returns the field, `None`
      included. */
  function ReadVelocity(p: Process): (r: Result<Option<real>>)
    ensures r.Ok? <==>
      !p.width.Unassigned? && !p.height.Unassigned? && !p.extrusion.Unassigned?
      && (p.velocity.Num? || (p.velocity.Null? && !(p.width.Num? && p.height.Num? && p.extrusion.Num?)))
    ensures r.Ok? ==> r.value == (if p.velocity.Num? then Some(p.velocity.r) else None)
    ensures p.width.Num? && p.height.Num? && p.extrusion.Num? && p.velocity.Null? ==> r == Err(RecursionError)
  {
    if p.width.Unassigned? || p.height.Unassigned? || p.extrusion.Unassigned? then Err(AttributeError)
    else if p.velocity.Unassigned? then Err(AttributeError)
    else if p.width.Num? && p.height.Num? && p.extrusion.Num? && p.velocity.Null? then Err(RecursionError)
    else if p.velocity.Null? then Ok(None)
    else Ok(Some(p.velocity.r))
  }

  /** The `path_profile` setter, given both arguments. Both given: stored as
      they are. One given: the other is derived from the bead area that the
      velocity and extrusion rate imply, and a derived value outside its
      bounds is stored with a warning. Neither given: the search over
      heights raises, as `range` does not accept floats. */
  function SetProfile(p: Process, width: Option<real>, height: Option<real>): (r: Result<Warned<Process>>)
    ensures width.Some? && height.Some? ==>
      r == Ok(Warned(p.(width := Num(width.value), height := Num(height.value)), false))
    ensures !(width.Some? && height.Some?) ==>
      (r.Ok? <==> ReadVelocity(p).Ok? && ReadVelocity(p).value.Some? && p.extrusion.Num?
                  && (width.Some? || height.Some?)
                  && (width.None? ==> height.value != 0.0)
                  && (height.None? ==> width.value != 0.0))
    ensures width.None? && height.Some? && r.Ok? ==>
      var w := AreaOf(p.velocity.r, p.extrusion.r) / height.value;
      r.value == Warned(p.(width := Num(w), height := Num(height.value)), w < MinWidth || w > MaxWidth)
    ensures width.Some? && height.None? && r.Ok? ==>
      var h := AreaOf(p.velocity.r, p.extrusion.r) / width.value;
      r.value == Warned(p.(width := Num(width.value), height := Num(h)), h < MinHeight || h > MaxHeight)
  {
    if width.Some? && height.Some? then
      Ok(Warned(p.(width := Num(width.value), height := Num(height.value)), false))
    else
      var v :- ReadVelocity(p);
      if v.None? then Err(TypeError)
      else
        var e :- (match p.extrusion case Num(x) => Ok(x) case Null => Err(TypeError) case Unassigned => Err(AttributeError));
        var area := AreaOf(v.value, e);
        if width.None? && height.None? then Err(TypeError)
        else if width.None? then
          if height.value == 0.0 then Err(ZeroDivisionError)
          else
            var w := area / height.value;
            Ok(Warned(p.(width := Num(w), height := Num(height.value)), w < MinWidth || w > MaxWidth))
        else
          if width.value == 0.0 then Err(ZeroDivisionError)
          else
            var h := area / width.value;
            Ok(Warned(p.(width := Num(width.value), height := Num(h)), h < MinHeight || h > MaxHeight))
  }

  /** The bead area the profile setter recovers from a derived velocity is
      the bead area the velocity was derived from. */
  lemma AreaOfVelocity(w: real, h: real, e: real)
    requires e != 0.0
    ensures AreaOf(VelocityOf(w, h, e), e) == w * h
  {
    var a := w * h * Nozzle * 1000.0;
    var v := VelocityOf(w, h, e);
    assert v == (a / e * 1000.0) / 60.0;
    assert (v / 1000.0) * 60.0 == a / e;
    assert (a / e) * e == a;
    assert ((a / e) * e / 1000.0) == w * h * Nozzle;
  }

  /** Deriving the velocity from a bead `w` by `h` and then setting the
      profile from the width gives back the height, and from the height gives
      back the width: the profile setter inverts the velocity formula. */
  lemma ProfileInvertsVelocity(p: Process, w: real, h: real, e: real)
    requires p.width == Num(w) && p.height == Num(h) && p.extrusion == Num(e)
    requires w != 0.0 && h != 0.0 && e != 0.0
    ensures SetVelocity(p, None).Ok?
    ensures var q := SetVelocity(p, None).value;
      && SetProfile(q, Some(w), None).Ok? && SetProfile(q, Some(w), None).value.value.height == Num(h)
      && SetProfile(q, None, Some(h)).Ok? && SetProfile(q, None, Some(h)).value.value.width == Num(w)
  {
    var q := SetVelocity(p, None).value;
    AreaOfVelocity(w, h, e);
    assert q.velocity == Num(VelocityOf(w, h, e));
    assert ReadVelocity(q) == Ok(Some(VelocityOf(w, h, e)));
    assert (w * h) / w == h;
    assert (w * h) / h == w;
  }

  /** Feeding the derived velocity into the extrusion formula yields
      `0.0036 * e`, not `e`: the extrusion formula does not invert the
      velocity formula. */
  lemma ExtrusionOfVelocity(w: real, h: real, e: real)
    requires w != 0.0 && h != 0.0 && e != 0.0
    ensures VelocityOf(w, h, e) != 0.0
    ensures ExtrusionOf(w, h, VelocityOf(w, h, e)) == 0.0036 * e
    ensures ExtrusionOf(w, h, VelocityOf(w, h, e)) != e
  {
    var a := w * h * Nozzle * 1000.0;
    assert a != 0.0;
    var v := VelocityOf(w, h, e);
    assert v == a * 1000.0 / (60.0 * e);
    assert (v * 1000.0) / 60.0 == a * 1000000.0 / (3600.0 * e);
    assert a / (a * 1000000.0 / (3600.0 * e)) == 3600.0 * e / 1000000.0;
  }

  /** Setting the velocity to `None` and then the extrusion rate to `None`
      leaves the node with rate `0.0036 * e` where it had `e`. */
  lemma RederivedExtrusion(p: Process, w: real, h: real, e: real)
    requires p.width == Num(w) && p.height == Num(h) && p.extrusion == Num(e)
    requires w != 0.0 && h != 0.0 && e != 0.0
    ensures SetVelocity(p, None).Ok?
    ensures SetExtrusion(SetVelocity(p, None).value, None) == Ok(SetVelocity(p, None).value.(extrusion := Num(0.0036 * e)))
  {
    ExtrusionOfVelocity(w, h, e);
  }
}
