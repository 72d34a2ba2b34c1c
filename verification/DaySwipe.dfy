/**
 One day per horizontal swipe: the pointer-event machine, and what its moves mean in terms of the
 presses and releases of a whole event sequence. Coordinates are reals.
 */
module DaySwipe {
  import opened Wrappers

  datatype Start = Start(id: int, x: real, y: real)

  datatype Event =
    | Down(isPrimary: bool, button: int, id: int, x: real, y: real)
    | Move(id: int, x: real, y: real)
    | Up(id: int, x: real, y: real)
    | Cancel
    | LostCapture
    | KeyDown(modified: bool, key: string)

  /** What the closure remembers, and the calls of moveDay so far. */
  datatype State = State(start: Option<Start>, moves: seq<int>)

  const NEXT_DAY := 1
  const PREVIOUS_DAY := -1

  function Abs(x: real): (r: real)
    ensures r >= 0.0 && (r == x || r == -x)
  {
    if x < 0.0 then -x else x
  }

  /** A vertical scroll has become apparent. */
  predicate Vertical(dx: real, dy: real) {
    Abs(dy) > 12.0 && Abs(dy) > Abs(dx)
  }

  /** Far enough, and horizontal enough. */
  predicate Deliberate(dx: real, dy: real) {
    Abs(dx) >= 40.0 && Abs(dx) > Abs(dy) * 1.5
  }

  predicate PrimaryLeft(e: Event) {
    e.Down? && e.isPrimary && e.button == 0
  }

  /** What one event does. */
  function Step(s: State, e: Event): State {
    match e
    case Down(isPrimary, button, id, x, y) =>
      if !isPrimary then s.(start := None)
      else if button != 0 then s
      else s.(start := Some(Start(id, x, y)))
    case Move(id, x, y) =>
      if s.start.None? || id != s.start.value.id then s
      else if Vertical(x - s.start.value.x, y - s.start.value.y) then s.(start := None)
      else s
    case Up(id, x, y) =>
      if s.start.None? || id != s.start.value.id then s
      else
        var dx, dy := x - s.start.value.x, y - s.start.value.y;
        State(None, if Deliberate(dx, dy) then s.moves + [if dx < 0.0 then NEXT_DAY else PREVIOUS_DAY] else s.moves)
    case Cancel => s.(start := None)
    case LostCapture => s.(start := None)
    case KeyDown(modified, key) => s.(moves := s.moves + ArrowMove(modified, key))
  }

  function ArrowMove(modified: bool, key: string): seq<int> {
    if !modified && key == "ArrowRight" then [NEXT_DAY]
    else if !modified && key == "ArrowLeft" then [PREVIOUS_DAY]
    else []
  }

  class Swipe {
    var start: Option<Start>
    var moves: seq<int>

    ghost function Abstract(): State
      reads this
    {
      State(start, moves)
    }

    constructor ()
      ensures Abstract() == State(None, [])
    {
      start := None;
      moves := [];
    }

    method Reset()
      modifies `start
      ensures start == None
    {
      start := None;
    }

    method MoveDay(direction: int)
      modifies `moves
      ensures moves == old(moves) + [direction]
    {
      moves := moves + [direction];
    }

    method PointerDown(isPrimary: bool, button: int, id: int, x: real, y: real)
      modifies this
      ensures Abstract() == Step(old(Abstract()), Down(isPrimary, button, id, x, y))
    {
      if !isPrimary {
        Reset();
        return;
      }
      if button != 0 {
        return;
      }
      start := Some(Start(id, x, y));
    }

    method PointerMove(id: int, x: real, y: real)
      modifies this
      ensures Abstract() == Step(old(Abstract()), Move(id, x, y))
    {
      if start.None? || id != start.value.id {
        return;
      }
      var dx, dy := Abs(x - start.value.x), Abs(y - start.value.y);
      if dy > 12.0 && dy > dx {
        Reset();
      }
    }

    method PointerUp(id: int, x: real, y: real)
      modifies this
      ensures Abstract() == Step(old(Abstract()), Up(id, x, y))
    {
      if start.None? || id != start.value.id {
        return;
      }
      var dx, dy := x - start.value.x, y - start.value.y;
      Reset();
      if Abs(dx) >= 40.0 && Abs(dx) > Abs(dy) * 1.5 {
        MoveDay(if dx < 0.0 then NEXT_DAY else PREVIOUS_DAY);
      }
    }

    method PointerCancel()
      modifies this
      ensures Abstract() == Step(old(Abstract()), Cancel)
    {
      Reset();
    }

    method LostPointerCapture()
      modifies this
      ensures Abstract() == Step(old(Abstract()), LostCapture)
    {
      Reset();
    }

    method KeyPress(alt: bool, ctrl: bool, meta: bool, shift: bool, key: string)
      modifies this
      ensures Abstract() == Step(old(Abstract()), KeyDown(alt || ctrl || meta || shift, key))
    {
      if alt || ctrl || meta || shift {
        return;
      }
      if key != "ArrowLeft" && key != "ArrowRight" {
        return;
      }
      MoveDay(if key == "ArrowRight" then NEXT_DAY else PREVIOUS_DAY);
    }
  }

  // ---- whole event sequences -----------------------------------------------------------------

  /** The state after the first `n` events. */
  function After(events: seq<Event>, n: nat): State
    requires n <= |events|
  {
    if n == 0 then State(None, []) else Step(After(events, n - 1), events[n - 1])
  }

  /** What ends a press. */
  predicate Ends(press: Event, e: Event)
    requires press.Down?
  {
    match e
    case Down(isPrimary, button, _, _, _) => !isPrimary || button == 0
    case Move(id, x, y) => id == press.id && Abs(y - press.y) > 12.0 && Abs(y - press.y) > Abs(x - press.x)
    case Up(id, _, _) => id == press.id
    case Cancel => true
    case LostCapture => true
    case KeyDown(_, _) => false
  }

  /** The primary left press at `p` that nothing has ended before `n`. */
  ghost predicate Live(events: seq<Event>, n: nat, p: int)
    requires n <= |events|
  {
    && 0 <= p < n && events[p].Down? && events[p].isPrimary && events[p].button == 0
    && forall q :: p < q < n ==> !Ends(events[p], events[q])
  }

  /** The event at `n` releases the live press at `p` after 40 pixels or more, at over 3 to 2 sideways. */
  ghost predicate Swipes(events: seq<Event>, n: nat, p: int)
    requires n < |events|
  {
    && events[n].Up?
    && Live(events, n, p) && events[p].id == events[n].id
    && Abs(events[n].x - events[p].x) >= 40.0
    && Abs(events[n].x - events[p].x) > Abs(events[n].y - events[p].y) * 1.5
  }

  /** At most one press is live at a time. */
  lemma LiveIsUnique(events: seq<Event>, n: nat, p: int, q: int)
    requires n <= |events| && Live(events, n, p) && Live(events, n, q)
    ensures p == q
  {
    if p < q {
      assert Ends(events[p], events[q]);
    } else if q < p {
      assert Ends(events[q], events[p]);
    }
  }

  function StartOf(press: Event): Start
    requires press.Down?
  {
    Start(press.id, press.x, press.y)
  }

  ghost predicate Remembers(events: seq<Event>, n: nat, start: Option<Start>)
    requires n <= |events|
  {
    match start
    case None => forall p :: !Live(events, n, p)
    case Some(s) => exists p :: Live(events, n, p) && StartOf(events[p]) == s
  }

  lemma LiveStep(events: seq<Event>, n: nat, p: int)
    requires n < |events|
    ensures Live(events, n + 1, p) <==>
            (p == n && PrimaryLeft(events[n])) || (Live(events, n, p) && !Ends(events[p], events[n]))
  {
  }

  lemma RemembersStep(events: seq<Event>, n: nat, before: Option<Start>, moves: seq<int>)
    requires n < |events| && Remembers(events, n, before)
    ensures Remembers(events, n + 1, Step(State(before, moves), events[n]).start)
  {
    forall p ensures Live(events, n + 1, p) <==>
                     (p == n && PrimaryLeft(events[n])) || (Live(events, n, p) && !Ends(events[p], events[n]))
    {
      LiveStep(events, n, p);
    }
    if before.Some? {
      var p :| Live(events, n, p) && StartOf(events[p]) == before.value;
      forall q | Live(events, n, q) ensures q == p {
        LiveIsUnique(events, n, p, q);
      }
      assert Live(events, n + 1, p) <==> !Ends(events[p], events[n]);
    }
    assert PrimaryLeft(events[n]) ==> Live(events, n + 1, n);
  }

  /** The closure remembers exactly the live press. */
  lemma {:induction false} RemembersLivePress(events: seq<Event>, n: nat)
    requires n <= |events|
    ensures Remembers(events, n, After(events, n).start)
    decreases n
  {
    if n > 0 {
      RemembersLivePress(events, n - 1);
      RemembersStep(events, n - 1, After(events, n - 1).start, After(events, n - 1).moves);
    }
  }

  /** The days that the event at `n` should move by, from presses and releases alone. */
  ghost function Due(events: seq<Event>, n: nat): seq<int>
    requires n < |events|
  {
    if events[n] == KeyDown(false, "ArrowRight") then [1]
    else if events[n] == KeyDown(false, "ArrowLeft") then [-1]
    else if exists p :: Swipes(events, n, p) && events[n].x < events[p].x then [1]
    else if exists p :: Swipes(events, n, p) then [-1]
    else []
  }

  /** Every event moves exactly the days that are due; swiping left is a step forward. */
  lemma MovesWhenDue(events: seq<Event>, n: nat)
    requires n < |events|
    ensures After(events, n + 1).moves == After(events, n).moves + Due(events, n)
  {
    var s := After(events, n);
    RemembersLivePress(events, n);
    if events[n].Up? && s.start.Some? {
      var p :| Live(events, n, p) && StartOf(events[p]) == s.start.value;
      forall q | Live(events, n, q) ensures q == p {
        LiveIsUnique(events, n, p, q);
      }
      assert Swipes(events, n, p) <==>
             && events[n].id == s.start.value.id
             && Deliberate(events[n].x - s.start.value.x, events[n].y - s.start.value.y);
    }
  }

  ghost function AllDue(events: seq<Event>, n: nat): seq<int>
    requires n <= |events|
  {
    if n == 0 then [] else AllDue(events, n - 1) + Due(events, n - 1)
  }

  /** Over a whole sequence, moveDay is called for deliberate swipes and arrow keys, in order, and for nothing else. */
  lemma {:induction false} MovesAreDue(events: seq<Event>, n: nat)
    requires n <= |events|
    ensures After(events, n).moves == AllDue(events, n)
    decreases n
  {
    if n > 0 {
      MovesAreDue(events, n - 1);
      MovesWhenDue(events, n - 1);
    }
  }

  /** One press, one move: no press is the start of two swipes, and no swipe has two presses. */
  lemma OneMovePerPress(events: seq<Event>, m: nat, n: nat, p: int, q: int)
    requires m < |events| && n < |events| && Swipes(events, m, p) && Swipes(events, n, q)
    ensures m == n <==> p == q
  {
    if m == n {
      LiveIsUnique(events, n, p, q);
    } else if p == q {
      var first, last := if m < n then m else n, if m < n then n else m;
      assert Ends(events[p], events[first]) && p < first < last;
      assert false;
    }
  }
}
