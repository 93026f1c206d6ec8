/**
 * A copyist and the fixed order of its actions (Engineers.java:69-151).
 *
 * What a copyist does is recorded as a trace of events: picking a tool up,
 * drawing, putting a tool down and checking. A copy cycle takes the pencil,
 * then the eidograph, draws, puts the pencil and then the eidograph down and
 * checks the work. `Step` is the protocol such a trace must follow: the
 * eidograph is taken only while the pencil is held, drawing needs both tools
 * and checking needs neither.
 */
module Copyists {
  import opened Tools

  /** One observable action of a copyist; tools are named as in the log. */
  datatype Event =
    | PickUp(tool: string, id: int)
    | Drawing
    | PutDown(tool: string, id: int)
    | Checking

  /** Which of its two tools a copyist holds. */
  datatype Hands = Hands(pencil: bool, eidograph: bool)

  /** Holding nothing. */
  const Idle := Hands(false, false)

  datatype Option<T> = None | Some(value: T)

  /** The protocol: what holding `h` becomes after `e`, or `None` if `e` is not allowed. */
  function Step(h: Hands, e: Event): Option<Hands> {
    match e
    case PickUp(tool, _) =>
      if tool == "pencil" && !h.pencil then Some(h.(pencil := true))
      else if tool == "eidograph" && h.pencil && !h.eidograph then Some(h.(eidograph := true))
      else None
    case Drawing =>
      if h.pencil && h.eidograph then Some(h) else None
    case PutDown(tool, _) =>
      if tool == "pencil" && h.pencil then Some(h.(pencil := false))
      else if tool == "eidograph" && h.eidograph then Some(h.(eidograph := false))
      else None
    case Checking =>
      if h == Idle then Some(h) else None
  }

  /** Follows the protocol through a whole trace. */
  function Replay(h: Hands, t: seq<Event>): Option<Hands>
    decreases |t|
  {
    if t == [] then Some(h)
    else
      match Step(h, t[0])
      case None => None
      case Some(h') => Replay(h', t[1..])
  }

  /** The events of one `copy()` with pencil `p` and eidograph `e`, `check()` included. */
  function CopyCycle(p: int, e: int): seq<Event> {
    [PickUp("pencil", p), PickUp("eidograph", e), Drawing, PutDown("pencil", p), PutDown("eidograph", e), Checking]
  }

  /** `k` copies of `t`, one after the other. */
  function Repeat(t: seq<Event>, k: nat): (r: seq<Event>)
    ensures |r| == k * |t|
  {
    if k == 0 then [] else Repeat(t, k - 1) + t
  }

  /** Following the protocol through `a + b` is following it through `a`, then through `b`. */
  lemma {:induction false} ReplayConcat(h: Hands, a: seq<Event>, b: seq<Event>)
    ensures Replay(h, a + b) == if Replay(h, a).None? then None else Replay(Replay(h, a).value, b)
    decreases |a|
  {
    if a != [] {
      assert (a + b)[0] == a[0];
      assert (a + b)[1..] == a[1..] + b;
      if Step(h, a[0]).Some? {
        ReplayConcat(Step(h, a[0]).value, a[1..], b);
      }
    } else {
      assert a + b == b;
    }
  }

  /** A copy cycle is allowed from holding nothing and ends holding nothing. */
  lemma CopyCycleAllowed(p: int, e: int)
    ensures Replay(Idle, CopyCycle(p, e)) == Some(Idle)
  {
    var c := CopyCycle(p, e);
    var held := Hands(true, true);
    assert c[5..] == [Checking];
    assert Replay(Idle, c[5..]) == Some(Idle);
    assert c[4..] == [PutDown("eidograph", e)] + c[5..];
    assert Replay(Hands(false, true), c[4..]) == Some(Idle);
    assert c[3..] == [PutDown("pencil", p)] + c[4..];
    assert Replay(held, c[3..]) == Some(Idle);
    assert c[2..] == [Drawing] + c[3..];
    assert Replay(held, c[2..]) == Some(Idle);
    assert c[1..] == [PickUp("eidograph", e)] + c[2..];
    assert Replay(Hands(true, false), c[1..]) == Some(Idle);
  }

  /** Any number of copy cycles follow the protocol and end holding nothing. */
  lemma {:induction false} RepeatAllowed(p: int, e: int, k: nat)
    ensures Replay(Idle, Repeat(CopyCycle(p, e), k)) == Some(Idle)
  {
    if k > 0 {
      RepeatAllowed(p, e, k - 1);
      ReplayConcat(Idle, Repeat(CopyCycle(p, e), k - 1), CopyCycle(p, e));
      CopyCycleAllowed(p, e);
    }
  }

  /** Every event of `k` copies of `t` occurs `k` times as often as in `t`. */
  lemma {:induction false} RepeatCounts(t: seq<Event>, k: nat, x: Event)
    ensures multiset(Repeat(t, k))[x] == k * multiset(t)[x]
  {
    if k > 0 {
      RepeatCounts(t, k - 1, x);
      var n := multiset(t)[x];
      assert multiset(Repeat(t, k)) == multiset(Repeat(t, k - 1)) + multiset(t);
      assert (k - 1) * n + n == k * n;
    }
  }

  /**
   * Five copy cycles pick each tool up five times and put it down five
   * times, draw five times and check five times.
   */
  lemma FiveCycles(p: int, e: int)
    ensures var t := Repeat(CopyCycle(p, e), 5);
      multiset(t)[PickUp("pencil", p)] == 5 && multiset(t)[PutDown("pencil", p)] == 5 &&
      multiset(t)[PickUp("eidograph", e)] == 5 && multiset(t)[PutDown("eidograph", e)] == 5 &&
      multiset(t)[Drawing] == 5 && multiset(t)[Checking] == 5
  {
    var c := CopyCycle(p, e);
    assert multiset(c) == multiset{PickUp("pencil", p), PickUp("eidograph", e), Drawing,
                                   PutDown("pencil", p), PutDown("eidograph", e), Checking};
    RepeatCounts(c, 5, PickUp("pencil", p));
    RepeatCounts(c, 5, PutDown("pencil", p));
    RepeatCounts(c, 5, PickUp("eidograph", e));
    RepeatCounts(c, 5, PutDown("eidograph", e));
    RepeatCounts(c, 5, Drawing);
    RepeatCounts(c, 5, Checking);
  }

  /** A copyist, bound for life to one pencil and one eidograph. */
  class Copyist {
    const copyistID: int
    const pencil: Tool
    const eidograph: Tool
    const minCopy: int
    const maxCopy: int
    const minCheck: int
    const maxCheck: int
    /** The actions performed so far, in order. */
    var trace: seq<Event>

    /**
     * The pencil is a pencil and the eidograph an eidograph (so they are two
     * different tools), and the copyist holds neither between two copies.
     */
    ghost predicate Valid()
      reads this
    {
      pencil.toolName == "pencil" && eidograph.toolName == "eidograph" &&
      Replay(Idle, trace) == Some(Idle)
    }

    /** The constructor stores its seven arguments. */
    constructor (copyistID: int, pencil: Tool, eidograph: Tool,
                 minCopy: int, maxCopy: int, minCheck: int, maxCheck: int)
      requires pencil.toolName == "pencil" && eidograph.toolName == "eidograph"
      ensures this.copyistID == copyistID && this.pencil == pencil && this.eidograph == eidograph
      ensures this.minCopy == minCopy && this.maxCopy == maxCopy
      ensures this.minCheck == minCheck && this.maxCheck == maxCheck
      ensures trace == [] && Valid()
    {
      this.copyistID := copyistID;
      this.pencil := pencil;
      this.eidograph := eidograph;
      this.minCopy := minCopy;
      this.maxCopy := maxCopy;
      this.minCheck := minCheck;
      this.maxCheck := maxCheck;
      trace := [];
    }

    /**
     * `check()`: the copyist checks the work, touching no tool. Checking
     * between two copies keeps the protocol.
     */
    method Check()
      modifies this`trace
      ensures trace == old(trace) + [Checking]
      ensures old(Valid()) ==> Valid()
    {
      ReplayConcat(Idle, trace, [Checking]);
      trace := trace + [Checking];
    }

    /**
     * `copy()`: take the pencil, then the eidograph, draw, put both down and
     * check. Both tools are available again afterwards.
     */
    method Copy()
      requires Valid() && pencil.isAvailable && eidograph.isAvailable
      modifies this`trace, pencil`isAvailable, eidograph`isAvailable
      ensures Valid() && pencil.isAvailable && eidograph.isAvailable
      ensures trace == old(trace) + CopyCycle(pencil.toolID, eidograph.toolID)
    {
      pencil.PickToolUp(copyistID);
      trace := trace + [PickUp(pencil.toolName, pencil.toolID)];
      eidograph.PickToolUp(copyistID);
      trace := trace + [PickUp(eidograph.toolName, eidograph.toolID)];
      trace := trace + [Drawing];
      pencil.PutToolDown(copyistID);
      trace := trace + [PutDown(pencil.toolName, pencil.toolID)];
      eidograph.PutToolDown(copyistID);
      trace := trace + [PutDown(eidograph.toolName, eidograph.toolID)];
      Check();
      assert trace == old(trace) + CopyCycle(pencil.toolID, eidograph.toolID);
      ReplayConcat(Idle, old(trace), CopyCycle(pencil.toolID, eidograph.toolID));
      CopyCycleAllowed(pencil.toolID, eidograph.toolID);
    }

    /** `run()`: five copies, one after the other. */
    method Run()
      requires Valid() && pencil.isAvailable && eidograph.isAvailable
      modifies this`trace, pencil`isAvailable, eidograph`isAvailable
      ensures Valid() && pencil.isAvailable && eidograph.isAvailable
      ensures trace == old(trace) + Repeat(CopyCycle(pencil.toolID, eidograph.toolID), 5)
    {
      for i := 0 to 5
        invariant Valid() && pencil.isAvailable && eidograph.isAvailable
        invariant trace == old(trace) + Repeat(CopyCycle(pencil.toolID, eidograph.toolID), i)
      {
        Copy();
      }
    }
  }
}
