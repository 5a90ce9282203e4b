/** Runs of a handshake machine, whichever side it is on: bytes arrive, and turns are taken. */
module TlsRuns {
  import opened TlsMessages

  /** What happens to one side: bytes arrive, in any order and with any content, or it takes a turn. */
  datatype Event = Arrive(items: seq<Item>) | Run(o: Oracle)

  function After<T>(step: (T, Event) -> T, x: T, events: seq<Event>): T {
    if events == [] then x else step(After(step, x, events[..|events| - 1]), events[|events| - 1])
  }

  /** One turn after another. */
  function Turns(os: seq<Oracle>): seq<Event> {
    seq(|os|, i requires 0 <= i < |os| => Run(os[i]))
  }

  lemma OneTurnMore<T>(step: (T, Event) -> T, x: T, os: seq<Oracle>, from: nat, i: nat)
    requires from <= i < |os|
    ensures After(step, x, Turns(os[from..i + 1])) == step(After(step, x, Turns(os[from..i])), Run(os[i]))
  {
    var longer := Turns(os[from..i + 1]);
    assert longer[..|longer| - 1] == Turns(os[from..i]) && longer[|longer| - 1] == Run(os[i]);
  }

  lemma {:induction false} AfterAppend<T>(step: (T, Event) -> T, x: T, a: seq<Event>, b: seq<Event>)
    ensures After(step, x, a + b) == After(step, After(step, x, a), b)
    decreases |b|
  {
    if b == [] {
      assert a + b == a;
    } else {
      assert (a + b)[..|a + b| - 1] == a + b[..|b| - 1];
      AfterAppend(step, x, a, b[..|b| - 1]);
    }
  }

  lemma TurnsAppend<T>(step: (T, Event) -> T, x: T, os: seq<Oracle>, from: nat, mid: nat, to: nat)
    requires from <= mid <= to <= |os|
    ensures After(step, x, Turns(os[from..to])) == After(step, After(step, x, Turns(os[from..mid])), Turns(os[mid..to]))
  {
    assert Turns(os[from..to]) == Turns(os[from..mid]) + Turns(os[mid..to]);
    AfterAppend(step, x, Turns(os[from..mid]), Turns(os[mid..to]));
  }
}
