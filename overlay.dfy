/**
 * Idle hiding of the control overlay (App.js `count`, `handleProgress`,
 * `handleMouseMove`). The overlay's inline `style.visibility` starts
 * empty, a mouse move sets it to "visible" and resets the counter, and
 * each progress tick first hides the overlay once the counter exceeds 1
 * and then counts the tick if the overlay is marked visible.
 */
module ControlsOverlay {

  /** The inline style value: "" until the first mouse move, then "visible" or "hidden". */
  datatype Visibility = Unset | Visible | Hidden

  /** The module-level `count` together with the overlay's visibility. */
  datatype Overlay = Overlay(count: int, visibility: Visibility)

  const Start: Overlay := Overlay(0, Unset)

  /** The states the handlers can reach from `Start`. */
  predicate Valid(o: Overlay)
  {
    0 <= o.count <= 2 && (o.visibility != Visible ==> o.count == 0)
  }

  /** The overlay is on screen unless explicitly hidden. */
  predicate Shown(o: Overlay)
  {
    o.visibility != Hidden
  }

  /** The overlay part of `handleProgress`. */
  function Tick(o: Overlay): (r: Overlay)
    ensures Valid(o) ==> Valid(r)
    ensures o.count > 1 ==> r == Overlay(0, Hidden)
    ensures o.count <= 1 && o.visibility == Visible ==> r == Overlay(o.count + 1, Visible)
    ensures Valid(o) && o.visibility != Visible ==> r == o
  {
    var o' := if o.count > 1 then Overlay(0, Hidden) else o;
    if o'.visibility == Visible then o'.(count := o'.count + 1) else o'
  }

  /** `handleMouseMove`: shows the overlay and restarts the count, from any state. */
  function MouseMove(o: Overlay): (r: Overlay)
    ensures Valid(r) && Shown(r) && r.visibility == Visible && r.count == 0
  {
    Overlay(0, Visible)
  }

  /** `n` progress ticks without a mouse move. */
  function Ticks(o: Overlay, n: nat): Overlay
    decreases n
  {
    if n == 0 then o else Ticks(Tick(o), n - 1)
  }

  /** An overlay that is not marked visible ignores ticks: nothing counts and nothing changes. */
  lemma {:induction false} IdleTicks(o: Overlay, n: nat)
    requires Valid(o) && o.visibility != Visible
    ensures Ticks(o, n) == o
    decreases n
  {
    if n > 0 {
      IdleTicks(Tick(o), n - 1);
    }
  }

  /**
   * A visible overlay with count `c` stays visible, counting up, for
   * `3 - c` ticks and is hidden (count 0) from then on.
   */
  lemma {:induction false} TicksWhileVisible(c: nat, n: nat)
    requires c <= 2
    ensures n < 3 - c ==> Ticks(Overlay(c, Visible), n) == Overlay(c + n, Visible)
    ensures n >= 3 - c ==> Ticks(Overlay(c, Visible), n) == Overlay(0, Hidden)
    decreases n
  {
    if n > 0 {
      if c < 2 {
        TicksWhileVisible(c + 1, n - 1);
      } else {
        IdleTicks(Overlay(0, Hidden), n - 1);
      }
    }
  }

  /** After a mouse move the first two ticks keep the overlay up and the third hides it. */
  lemma AfterMouseMove(o: Overlay, n: nat)
    ensures Shown(Ticks(MouseMove(o), n)) <==> n <= 2
    ensures n <= 2 ==> Ticks(MouseMove(o), n) == Overlay(n, Visible)
    ensures n >= 3 ==> Ticks(MouseMove(o), n) == Overlay(0, Hidden)
  {
    TicksWhileVisible(0, n);
  }

  /** Before the first mouse move the overlay is never hidden, however many ticks arrive. */
  lemma NeverHiddenBeforeMouseMove(n: nat)
    ensures Ticks(Start, n) == Start && Shown(Ticks(Start, n))
  {
    IdleTicks(Start, n);
  }
}
