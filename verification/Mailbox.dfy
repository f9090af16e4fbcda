/**
  The mailbox of one task: senders bump its pending counter and then set an event bit; the task looks at the
  bits, queues handlers, clears the bits and later subtracts what it has handled. Senders and receiver
  interleave at single accesses to the shared counter and bits.
 */
module Mailbox {
  const U32: nat := 0x1_0000_0000

  datatype Event = AllPause | AllResume | AllReexecute | EntrySend | EntrySearch | ErrorOccurred

  /** An event bit: which mailbox of the task, and which event. */
  type Bit = (nat, Event)

  /**
    `inflight` are bits whose counter has been bumped but that are not set yet; `seen` are bits in the
    receiver's copy it has still to look at, `taken` those it has dealt with but not cleared.
   */
  datatype State = State(pending: nat, handled: nat, queue: seq<Event>, bits: set<Bit>,
                         seen: set<Bit>, taken: set<Bit>, inflight: multiset<Bit>)

  const START := State(0, 0, [], {}, {}, {}, multiset{})

  datatype Step =
    | Bump(bit: Bit)       // a sender, or the task itself, adds one to the counter
    | Post(bit: Bit)       // a sender ORs the event in
    | Register(bit: Bit)   // LocalSetMailBox queues the handler directly ...
    | Unset(bit: Bit)      // ... and clears the bit
    | Look(boxes: set<nat>)
    | Push(bit: Bit)       // a handler for a bit that was seen
    | Count(bit: Bit)      // a bit that was seen counts as handled at once
    | Ignore(bit: Bit)     // a bit that was seen is cleared without a handler
    | Leave(bit: Bit)      // a bit that was seen is left alone
    | Clear(bit: Bit)
    | Wipe(box: nat)       // FinalizeMailBox zeroes a mailbox
    | Handle               // the first handler runs
    | Subtract             // DecPendingCounter

  predicate Idle(s: State)
  {
    s.seen == {} && s.taken == {}
  }

  /** The order within each party; parties interleave freely. */
  predicate Enabled(s: State, t: Step)
  {
    match t
    case Post(b) => b in s.inflight
    case Register(b) => b in s.inflight
    case Unset(b) => Idle(s)
    case Look(_) => Idle(s)
    case Push(b) => b in s.seen
    case Count(b) => b in s.seen
    case Ignore(b) => b in s.seen
    case Leave(b) => b in s.seen
    case Clear(b) => b in s.taken
    case Wipe(_) => s.seen == {}
    case Handle => s.queue != []
    case _ => true
  }

  function InBox(bits: set<Bit>, box: nat): set<Bit>
  {
    set b | b in bits && b.0 == box
  }

  /** The counter is a uint32: it wraps both ways. */
  function Next(s: State, t: Step): State
  {
    match t
    case Bump(b) => s.(pending := (s.pending + 1) % U32, inflight := s.inflight + multiset{b})
    case Post(b) => s.(bits := s.bits + {b}, inflight := s.inflight - multiset{b})
    case Register(b) => s.(queue := s.queue + [b.1], inflight := s.inflight - multiset{b})
    case Unset(b) => s.(bits := s.bits - {b})
    case Look(boxes) => s.(seen := set b | b in s.bits && b.0 in boxes)
    case Push(b) => s.(queue := s.queue + [b.1], seen := s.seen - {b}, taken := s.taken + {b})
    case Count(b) => s.(handled := s.handled + 1, seen := s.seen - {b}, taken := s.taken + {b})
    case Ignore(b) => s.(bits := s.bits - {b}, seen := s.seen - {b})
    case Leave(b) => s.(seen := s.seen - {b})
    case Clear(b) => s.(bits := s.bits - {b}, taken := s.taken - {b})
    case Wipe(box) => s.(bits := s.bits - InBox(s.bits, box), taken := s.taken - InBox(s.bits, box))
    case Handle => if s.queue == [] then s else s.(handled := s.handled + 1, queue := s.queue[1..])
    case Subtract => s.(pending := (s.pending - s.handled) % U32, handled := 0)
  }

  /** Events that a step makes vanish: two become one bit, or a bit goes without being dealt with. */
  function Lost(s: State, t: Step): nat
  {
    match t
    case Post(b) => if b in s.bits then 1 else 0
    case Unset(b) => if b in s.bits then 1 else 0
    case Ignore(b) => 1
    case Wipe(box) => |InBox(s.bits, box) - s.taken|
    case _ => 0
  }

  predicate Legal(s: State, ts: seq<Step>)
    decreases |ts|
  {
    ts == [] || (Enabled(s, ts[0]) && Legal(Next(s, ts[0]), ts[1..]))
  }

  function Run(s: State, ts: seq<Step>): State
    decreases |ts|
  {
    if ts == [] then s else Run(Next(s, ts[0]), ts[1..])
  }

  function Losses(s: State, ts: seq<Step>): nat
    decreases |ts|
  {
    if ts == [] then 0 else Lost(s, ts[0]) + Losses(Next(s, ts[0]), ts[1..])
  }

  function Bumps(ts: seq<Step>): nat
  {
    if ts == [] then 0 else (if ts[0].Bump? then 1 else 0) + Bumps(ts[1..])
  }

  lemma {:induction false} BumpsCount(x: seq<Step>, y: seq<Step>, t: Step)
    ensures Bumps(x + y) == Bumps(x) + Bumps(y) && Bumps([t]) == if t.Bump? then 1 else 0
  {
    assert [t][1..] == [];
    if x == [] {
      assert x + y == y;
    } else {
      BumpsCount(x[1..], y, t);
      assert (x + y)[1..] == x[1..] + y;
    }
  }

  // ---- the conservation law ----

  /** Each event counted is handled, queued, a bit still to be dealt with, on its way, or lost. */
  ghost predicate Law(s: State, lost: nat)
  {
    && s.taken <= s.bits && s.seen <= s.bits && s.seen !! s.taken
    && s.pending == s.handled + |s.queue| + |s.bits - s.taken| + |s.inflight| + lost
  }

  lemma {:induction false} Without(a: set<Bit>, b: Bit)
    requires b in a
    ensures |a - {b}| == |a| - 1
  {
  }

  /** Every step of every party keeps the law, as long as the counter has room. */
  lemma {:induction false} StepKeepsLaw(s: State, t: Step, lost: nat)
    requires Law(s, lost) && Enabled(s, t) && s.pending + (if t.Bump? then 1 else 0) < U32
    ensures Law(Next(s, t), lost + Lost(s, t))
    ensures Next(s, t).pending <= s.pending + if t.Bump? then 1 else 0
  {
    hide Law, Next, Lost, Enabled;
    if t.Bump? || t.Subtract? {
      CounterStep(s, t, lost);
    } else if t.Post? || t.Register? || t.Handle? {
      QueueStep(s, t, lost);
    } else if t.Push? || t.Count? || t.Ignore? {
      SeenStep(s, t, lost);
    } else if t.Wipe? {
      WipeStep(s, t.box, lost);
    } else {
      BitStep(s, t, lost);
    }
  }

  lemma {:induction false} CounterStep(s: State, t: Step, lost: nat)
    requires Law(s, lost) && (t.Bump? || t.Subtract?) && s.pending + (if t.Bump? then 1 else 0) < U32
    ensures Law(Next(s, t), lost + Lost(s, t))
    ensures Next(s, t).pending <= s.pending + if t.Bump? then 1 else 0
  {
    assert 0 <= s.pending - s.handled < U32;
  }

  lemma {:induction false} QueueStep(s: State, t: Step, lost: nat)
    requires Law(s, lost) && (t.Post? || t.Register? || t.Handle?) && Enabled(s, t)
    ensures Law(Next(s, t), lost + Lost(s, t)) && Next(s, t).pending == s.pending
  {
    var n := Next(s, t);
    if t.Post? && t.bit !in s.bits {
      assert n.bits - n.taken == s.bits - s.taken + {t.bit};
    } else {
      assert n.bits - n.taken == s.bits - s.taken;
    }
  }

  lemma {:induction false} SeenStep(s: State, t: Step, lost: nat)
    requires Law(s, lost) && (t.Push? || t.Count? || t.Ignore?) && Enabled(s, t)
    ensures Law(Next(s, t), lost + Lost(s, t)) && Next(s, t).pending == s.pending
  {
    var n := Next(s, t);
    assert n.bits - n.taken == s.bits - s.taken - {t.bit};
    Without(s.bits - s.taken, t.bit);
  }

  lemma {:induction false} BitStep(s: State, t: Step, lost: nat)
    requires Law(s, lost) && (t.Unset? || t.Look? || t.Leave? || t.Clear?) && Enabled(s, t)
    ensures Law(Next(s, t), lost + Lost(s, t)) && Next(s, t).pending == s.pending
  {
    var n := Next(s, t);
    if t.Unset? && t.bit in s.bits {
      assert n.bits - n.taken == s.bits - s.taken - {t.bit};
      Without(s.bits - s.taken, t.bit);
    } else {
      assert n.bits - n.taken == s.bits - s.taken;
    }
  }

  lemma {:induction false} WipeStep(s: State, box: nat, lost: nat)
    requires Law(s, lost) && Enabled(s, Wipe(box))
    ensures Law(Next(s, Wipe(box)), lost + Lost(s, Wipe(box))) && Next(s, Wipe(box)).pending == s.pending
  {
    hide InBox;
    Boxed(s.bits, box);
    WipeSets(s.bits, s.taken, InBox(s.bits, box));
  }

  lemma {:induction false} WipeSets(bits: set<Bit>, taken: set<Bit>, boxed: set<Bit>)
    requires taken <= bits && boxed <= bits
    ensures taken - boxed <= bits - boxed
    ensures |(bits - boxed) - (taken - boxed)| == |bits - taken| - |boxed - taken|
  {
    assert (bits - boxed) - (taken - boxed) == (bits - taken) - (boxed - taken);
    Difference(bits - taken, boxed - taken);
  }

  lemma {:induction false} Difference(a: set<Bit>, b: set<Bit>)
    requires b <= a
    ensures |a - b| == |a| - |b|
  {
    assert a == (a - b) + b;
  }

  lemma Boxed(bits: set<Bit>, box: nat)
    ensures InBox(bits, box) <= bits
  {
  }

  /** Over any interleaving: nothing is counted twice and nothing wraps. */
  lemma {:induction false} RunKeepsLaw(s: State, ts: seq<Step>, lost: nat)
    requires Law(s, lost) && Legal(s, ts) && s.pending + Bumps(ts) < U32
    ensures Law(Run(s, ts), lost + Losses(s, ts))
    decreases |ts|
  {
    hide Law, Next, Enabled, Lost;
    if ts != [] {
      StepKeepsLaw(s, ts[0], lost);
      RunKeepsLaw(Next(s, ts[0]), ts[1..], lost + Lost(s, ts[0]));
    }
  }

  /**
    Safety from the start, for fewer than 2^32 events: the counter covers all that is handled, queued, set
    or on its way, so subtracting never wraps; and a counter at zero means there is nothing to do.
   */
  lemma {:induction false} MailboxSafety(ts: seq<Step>)
    requires Legal(START, ts) && Bumps(ts) < U32
    ensures
      var s := Run(START, ts);
      && s.pending == s.handled + |s.queue| + |s.bits - s.taken| + |s.inflight| + Losses(START, ts)
      && Next(s, Subtract).pending == s.pending - s.handled
      && (s.pending == 0 ==> s.handled == 0 && s.queue == [] && s.bits == s.taken && s.inflight == multiset{})
  {
    hide Legal, Run, Losses, Bumps;
    RunKeepsLaw(START, ts, 0);
    var s := Run(START, ts);
    assert s.pending < U32 by { PendingBounded(START, ts, 0); }
    assert |s.bits - s.taken| == 0 ==> s.bits - s.taken == {};
  }

  lemma {:induction false} PendingBounded(s: State, ts: seq<Step>, lost: nat)
    requires Law(s, lost) && Legal(s, ts) && s.pending + Bumps(ts) < U32
    ensures Run(s, ts).pending <= s.pending + Bumps(ts)
    decreases |ts|
  {
    hide Law, Next, Enabled, Lost;
    if ts != [] {
      StepKeepsLaw(s, ts[0], lost);
      PendingBounded(Next(s, ts[0]), ts[1..], lost + Lost(s, ts[0]));
    }
  }

  ghost predicate Quiet(s: State)
  {
    Idle(s) && s.handled == 0 && s.queue == [] && s.bits == {} && s.inflight == multiset{}
  }

  /** When all is done the counter is back at zero exactly if no event was lost on the way. */
  lemma {:induction false} QuietIsZero(ts: seq<Step>)
    requires Legal(START, ts) && Bumps(ts) < U32 && Quiet(Run(START, ts))
    ensures Run(START, ts).pending == Losses(START, ts)
  {
    hide Legal, Run, Losses, Bumps;
    MailboxSafety(ts);
  }

  lemma {:induction false} FirstStep(s: State, t: Step, ts: seq<Step>)
    requires Enabled(s, t) && Legal(Next(s, t), ts)
    ensures Legal(s, [t] + ts) && Run(s, [t] + ts) == Run(Next(s, t), ts)
  {
    assert ([t] + ts)[1..] == ts;
  }

  /** One bit read and handled, in a row, by the receiver. */
  lemma {:induction false} ReadOnce(b: Bit)
    ensures
      var ts := [Look({b.0})] + ([Push(b)] + ([Clear(b)] + ([Handle] + ([Subtract] + []))));
      var s := State(2, 0, [], {b}, {}, {}, multiset{});
      Legal(s, ts) && Run(s, ts) == State(1, 0, [], {}, {}, {}, multiset{})
  {
    hide Legal, Run;
    var s4 := State(2, 0, [], {b}, {}, {}, multiset{});
    var s5 := s4.(seen := {b});
    var s6 := s4.(taken := {b}, queue := [b.1]);
    var s7 := s4.(bits := {}, queue := [b.1]);
    var s8 := s4.(bits := {}, handled := 1);
    assert Next(s4, Look({b.0})) == s5 && Next(s5, Push(b)) == s6 && Next(s6, Clear(b)) == s7 && Next(s7, Handle) == s8;
    NoStep(Next(s8, Subtract));
    FirstStep(s8, Subtract, []);
    FirstStep(s7, Handle, [Subtract] + []);
    FirstStep(s6, Clear(b), [Handle] + ([Subtract] + []));
    FirstStep(s5, Push(b), [Clear(b)] + ([Handle] + ([Subtract] + [])));
    FirstStep(s4, Look({b.0}), [Push(b)] + ([Clear(b)] + ([Handle] + ([Subtract] + []))));
  }

  /** An event sent again before it was looked at leaves the counter at one for good. */
  lemma {:induction false} SentTwice(b: Bit)
    ensures
      var ts := [Bump(b), Post(b), Bump(b), Post(b), Look({b.0}), Push(b), Clear(b), Handle, Subtract];
      Legal(START, ts) && Quiet(Run(START, ts)) && Run(START, ts).pending == 1
  {
    hide Legal, Run;
    ReadOnce(b);
    var read := [Look({b.0})] + ([Push(b)] + ([Clear(b)] + ([Handle] + ([Subtract] + []))));
    var s1 := START.(pending := 1, inflight := multiset{b});
    var s2 := START.(pending := 1, bits := {b});
    var s3 := s2.(pending := 2, inflight := multiset{b});
    var s4 := State(2, 0, [], {b}, {}, {}, multiset{});
    assert Next(START, Bump(b)) == s1 && Next(s1, Post(b)) == s2 && Next(s2, Bump(b)) == s3 && Next(s3, Post(b)) == s4;
    FirstStep(s3, Post(b), read);
    FirstStep(s2, Bump(b), [Post(b)] + read);
    FirstStep(s1, Post(b), [Bump(b)] + ([Post(b)] + read));
    FirstStep(START, Bump(b), [Post(b)] + ([Bump(b)] + ([Post(b)] + read)));
    assert [Bump(b)] + ([Post(b)] + ([Bump(b)] + ([Post(b)] + read)))
        == [Bump(b), Post(b), Bump(b), Post(b), Look({b.0}), Push(b), Clear(b), Handle, Subtract];
  }

  lemma NoStep(s: State)
    ensures Legal(s, []) && Run(s, []) == s
  {
  }

  // ---- the receiver's own code, between two steps of others ----

  function Less(bits: set<Bit>, b: Bit): set<Bit>
  {
    bits - {b}
  }

  /** Clearing one event's bit changes no other event's: the handlers are those of the bits as they were. */
  lemma {:induction false} HeadHandlersAre(q: seq<Event>, bits: set<Bit>, box: nat, errorOccurred: bool)
    ensures
      var a := Less(bits, (box, ErrorOccurred));
      var b := Less(a, (box, EntrySearch));
      var c := Less(b, (box, AllResume));
      (if errorOccurred then q else q + if (box, ErrorOccurred) in bits then [ErrorOccurred] else [])
      + (if (box, EntrySearch) in a then [EntrySearch] else [])
      + (if (box, AllResume) in b then [AllResume] else [])
      + (if (box, AllReexecute) in c then [AllReexecute] else [])
      == q + (if (box, ErrorOccurred) in bits && !errorOccurred then [ErrorOccurred] else [])
         + (if (box, EntrySearch) in bits then [EntrySearch] else [])
         + (if (box, AllResume) in bits then [AllResume] else [])
         + (if (box, AllReexecute) in bits then [AllReexecute] else [])
  {
    if errorOccurred {
      assert q + [] == q;
    }
  }

  lemma {:induction false} LocalKeepsLaw(s: State, b: Bit, lost: nat)
    requires Law(s, lost) && Idle(s)
    ensures Law(s.(pending := s.pending + 1, queue := s.queue + [b.1], bits := Less(s.bits, b)),
                lost + if b in s.bits then 1 else 0)
  {
    assert s.bits - {} == s.bits && Less(s.bits, b) - {} == Less(s.bits, b);
    if b in s.bits {
      Without(s.bits, b);
    }
  }

  lemma {:induction false} DroppedKeepsLaw(s: State, lost: nat, dropped: set<Bit>)
    requires Law(s, lost) && Idle(s) && dropped <= s.bits
    ensures Law(s.(bits := s.bits - dropped), lost + |dropped|)
  {
    assert s.bits - {} == s.bits && s.bits - dropped - {} == s.bits - dropped;
    Difference(s.bits, dropped);
  }

  /** What a member drops unhandled. */
  function Dropped(s: set<Bit>): set<Bit>
  {
    {(0, EntrySearch), (0, ErrorOccurred)} * s
  }

  lemma DroppedIs(s: set<Bit>)
    ensures Dropped(s) == {(0, EntrySearch), (0, ErrorOccurred)} * s
  {
  }

  lemma {:induction false} MemberEvents(s: set<Bit>, q: seq<Event>)
    ensures
      var a := s - Dropped(s);
      var b := Less(a, (0, EntrySend));
      var c := Less(b, (0, AllPause));
      && Less(c, (0, AllReexecute)) == (set x | x in s && (x.0 != 0 || x.1 == AllResume))
      && q + (if (0, EntrySend) in a then [EntrySend] else []) + (if (0, AllPause) in b then [AllPause] else [])
         + (if (0, AllReexecute) in c then [AllReexecute] else [])
         == q + (if (0, EntrySend) in s then [EntrySend] else []) + (if (0, AllPause) in s then [AllPause] else [])
            + (if (0, AllReexecute) in s then [AllReexecute] else [])
  {
    var r := Less(Less(Less(s - Dropped(s), (0, EntrySend)), (0, AllPause)), (0, AllReexecute));
    forall x | x in s && x.0 == 0 && x.1 != AllResume
      ensures x !in r
    {
      match x.1 case AllPause => case AllResume => case AllReexecute => case EntrySend => case EntrySearch =>
      case ErrorOccurred =>
    }
  }

  lemma {:induction false} HeadEvents(s: set<Bit>, box: nat)
    requires (box, EntrySend) !in s && (box, AllPause) !in s
    ensures Less(Less(Less(Less(s, (box, ErrorOccurred)), (box, EntrySearch)), (box, AllResume)), (box, AllReexecute))
            == s - InBox(s, box)
  {
    SixEvents(s, box);
    assert s - {(box, EntrySend)} - {(box, AllPause)} == s;
  }

  lemma {:induction false} SixEvents(s: set<Bit>, i: nat)
    ensures
      var r := Less(Less(Less(s, (i, ErrorOccurred)), (i, AllReexecute)), (i, EntrySearch));
      Less(Less(Less(r, (i, EntrySend)), (i, AllPause)), (i, AllResume)) == s - InBox(s, i)
  {
    forall b | b in s && b.0 == i
      ensures b in {(i, ErrorOccurred), (i, AllReexecute), (i, EntrySearch)}
                   + {(i, EntrySend), (i, AllPause), (i, AllResume)}
    {
      match b.1 case AllPause => case AllResume => case AllReexecute => case EntrySend => case EntrySearch =>
      case ErrorOccurred =>
    }
  }

  // ---- that code as steps of the run above ----

  lemma {:induction false} StepsThen(s: State, x: seq<Step>, y: seq<Step>)
    requires Legal(s, x) && Legal(Run(s, x), y)
    ensures Legal(s, x + y) && Run(s, x + y) == Run(Run(s, x), y)
    decreases |x|
  {
    hide Next, Enabled;
    if x == [] {
      assert x + y == y;
    } else {
      assert (x + y)[1..] == x[1..] + y && (x + y)[0] == x[0];
      StepsThen(Next(s, x[0]), x[1..], y);
    }
  }

  /** A bit that was seen set is dealt with and cleared. */
  function Deal(bits: set<Bit>, b: Bit, push: bool): seq<Step>
  {
    if b in bits then [if push then Push(b) else Count(b), Clear(b)] else []
  }

  lemma {:induction false} DealRuns(s: State, b: Bit, push: bool)
    requires s.taken == {} && (b in s.seen <==> b in s.bits)
    ensures
      var ts, set_ := Deal(s.bits, b, push), b in s.bits;
      && Legal(s, ts)
      && Run(s, ts) == s.(queue := s.queue + (if set_ && push then [b.1] else []),
                          handled := s.handled + (if set_ && !push then 1 else 0),
                          bits := s.bits - {b}, seen := s.seen - {b})
  {
    var ts := Deal(s.bits, b, push);
    if b in s.bits {
      var t := Next(s, ts[0]);
      var u := Next(t, Clear(b));
      assert ts[1..] == [Clear(b)] && ts[1..][1..] == [];
      assert u.taken == {};
      NoStep(u);
      assert Legal(t, [Clear(b)]) && Run(t, [Clear(b)]) == u;
    } else {
      assert s.bits - {b} == s.bits && s.seen - {b} == s.seen && s.queue + [] == s.queue;
      NoStep(s);
    }
  }

  /** One event after the other, the first of them counted only if an error is being handled already. */
  function DealAll(bits: set<Bit>, bs: seq<Bit>, pushes: seq<bool>): seq<Step>
    requires |bs| == |pushes|
    decreases |bs|
  {
    if bs == [] then [] else Deal(bits, bs[0], pushes[0]) + DealAll(bits - {bs[0]}, bs[1..], pushes[1..])
  }

  function Queued(bits: set<Bit>, bs: seq<Bit>, pushes: seq<bool>): seq<Event>
    requires |bs| == |pushes|
    decreases |bs|
  {
    if bs == [] then []
    else (if bs[0] in bits && pushes[0] then [bs[0].1] else []) + Queued(bits - {bs[0]}, bs[1..], pushes[1..])
  }

  function Counted(bits: set<Bit>, bs: seq<Bit>, pushes: seq<bool>): nat
    requires |bs| == |pushes|
    decreases |bs|
  {
    if bs == [] then 0
    else (if bs[0] in bits && !pushes[0] then 1 else 0) + Counted(bits - {bs[0]}, bs[1..], pushes[1..])
  }

  function Gone(bs: seq<Bit>): set<Bit>
  {
    if bs == [] then {} else {bs[0]} + Gone(bs[1..])
  }

  lemma {:induction false} DealAllRuns(s: State, bs: seq<Bit>, pushes: seq<bool>)
    requires |bs| == |pushes| && s.taken == {} && forall b :: b in bs ==> (b in s.seen <==> b in s.bits)
    ensures
      var ts := DealAll(s.bits, bs, pushes);
      && Legal(s, ts)
      && Run(s, ts) == s.(queue := s.queue + Queued(s.bits, bs, pushes),
                          handled := s.handled + Counted(s.bits, bs, pushes),
                          bits := s.bits - Gone(bs), seen := s.seen - Gone(bs))
    decreases |bs|
  {
    hide Legal, Run, Deal;
    if bs == [] {
      assert s.queue + [] == s.queue && s.bits - {} == s.bits && s.seen - {} == s.seen;
      NoStep(s);
    } else {
      DealRuns(s, bs[0], pushes[0]);
      var x := Deal(s.bits, bs[0], pushes[0]);
      var t := Run(s, x);
      DealAllRuns(t, bs[1..], pushes[1..]);
      StepsThen(s, x, DealAll(t.bits, bs[1..], pushes[1..]));
      Regrouped(s, bs[0], Gone(bs[1..]), if bs[0] in s.bits && pushes[0] then [bs[0].1] else [],
                Queued(t.bits, bs[1..], pushes[1..]));
    }
  }

  lemma Regrouped(s: State, b: Bit, more: set<Bit>, h: seq<Event>, u: seq<Event>)
    ensures s.bits - {b} - more == s.bits - ({b} + more) && s.seen - {b} - more == s.seen - ({b} + more)
    ensures s.queue + h + u == s.queue + (h + u)
  {
  }

  lemma {:induction false} LookRuns(s: State, box: nat)
    requires Idle(s)
    ensures
      var t := s.(seen := InBox(s.bits, box));
      Legal(s, [Look({box})]) && Run(s, [Look({box})]) == t
  {
    var t := Next(s, Look({box}));
    assert t.seen == InBox(s.bits, box);
    assert [Look({box})][1..] == [];
    NoStep(t);
  }

  /** The head looks at one of its mailboxes, and deals with four events in this order. */
  function HeadSteps(bits: set<Bit>, box: nat, errorOccurred: bool): seq<Step>
  {
    [Look({box})] + DealAll(bits, [(box, ErrorOccurred), (box, EntrySearch), (box, AllResume), (box, AllReexecute)],
                            [!errorOccurred, true, true, true])
  }

  /** That is a run of the mailbox in which nobody else takes a step, and what it leaves. */
  lemma {:induction false} HeadIsRun(s: State, box: nat, errorOccurred: bool)
    requires Idle(s) && (box, EntrySend) !in s.bits && (box, AllPause) !in s.bits
    ensures
      var ts, error := HeadSteps(s.bits, box, errorOccurred), (box, ErrorOccurred) in s.bits;
      && Legal(s, ts)
      && Run(s, ts) == s.(handled := s.handled + (if error && errorOccurred then 1 else 0),
                          bits := s.bits - InBox(s.bits, box),
                          queue := s.queue + (if error && !errorOccurred then [ErrorOccurred] else [])
                                   + (if (box, EntrySearch) in s.bits then [EntrySearch] else [])
                                   + (if (box, AllResume) in s.bits then [AllResume] else [])
                                   + (if (box, AllReexecute) in s.bits then [AllReexecute] else []))
  {
    hide Legal, Run, DealAll, Queued, Counted, Gone;
    var bs: seq<Bit> := [(box, ErrorOccurred), (box, EntrySearch), (box, AllResume), (box, AllReexecute)];
    var pushes := [!errorOccurred, true, true, true];
    LookRuns(s, box);
    var t := s.(seen := InBox(s.bits, box));
    assert forall b :: b in bs ==> b.0 == box;
    DealAllRuns(t, bs, pushes);
    StepsThen(s, [Look({box})], DealAll(s.bits, bs, pushes));
    HeadUnrolled(s.bits, s.queue, box, errorOccurred);
  }

  lemma {:induction false} HeadUnrolled(bits: set<Bit>, q: seq<Event>, box: nat, errorOccurred: bool)
    requires (box, EntrySend) !in bits && (box, AllPause) !in bits
    ensures
      var bs: seq<Bit> := [(box, ErrorOccurred), (box, EntrySearch), (box, AllResume), (box, AllReexecute)];
      var pushes, error := [!errorOccurred, true, true, true], (box, ErrorOccurred) in bits;
      && bits - Gone(bs) == bits - InBox(bits, box) && InBox(bits, box) - Gone(bs) == {}
      && Counted(bits, bs, pushes) == (if error && errorOccurred then 1 else 0)
      && q + Queued(bits, bs, pushes) == q + (if error && !errorOccurred then [ErrorOccurred] else [])
                                         + (if (box, EntrySearch) in bits then [EntrySearch] else [])
                                         + (if (box, AllResume) in bits then [AllResume] else [])
                                         + (if (box, AllReexecute) in bits then [AllReexecute] else [])
  {
    hide Gone, Queued, Counted, InBox;
    var b4: seq<Bit> := [(box, AllReexecute)];
    var b3: seq<Bit> := [(box, AllResume)] + b4;
    var b2: seq<Bit> := [(box, EntrySearch)] + b3;
    var bs: seq<Bit> := [(box, ErrorOccurred)] + b2;
    assert bs == [(box, ErrorOccurred), (box, EntrySearch), (box, AllResume), (box, AllReexecute)];
    var x2 := bits - {(box, ErrorOccurred)};
    var x3 := x2 - {(box, EntrySearch)};
    var x4 := x3 - {(box, AllResume)};
    assert [!errorOccurred] + ([true] + ([true] + ([true] + []))) == [!errorOccurred, true, true, true];
    assert b4 == [(box, AllReexecute)] + [];
    OneMore(x4, (box, AllReexecute), [], true, []);
    OneMore(x3, (box, AllResume), b4, true, [true] + []);
    OneMore(x2, (box, EntrySearch), b3, true, [true] + ([true] + []));
    OneMore(bits, (box, ErrorOccurred), b2, !errorOccurred, [true] + ([true] + ([true] + [])));
    NoMore(x4 - {(box, AllReexecute)});
    BoxEmptied(bits, box);
  }

  lemma {:induction false} BoxEmptied(bits: set<Bit>, box: nat)
    requires (box, EntrySend) !in bits && (box, AllPause) !in bits
    ensures
      var last: set<Bit> := {(box, AllResume)} + ({(box, AllReexecute)} + {});
      var gone: set<Bit> := {(box, ErrorOccurred)} + ({(box, EntrySearch)} + last);
      bits - gone == bits - InBox(bits, box) && InBox(bits, box) - gone == {}
  {
    HeadEvents(bits, box);
  }

  lemma OneMore(bits: set<Bit>, b: Bit, bs: seq<Bit>, push: bool, pushes: seq<bool>)
    requires |bs| == |pushes|
    ensures Gone([b] + bs) == {b} + Gone(bs)
    ensures Queued(bits, [b] + bs, [push] + pushes)
         == (if b in bits && push then [b.1] else []) + Queued(bits - {b}, bs, pushes)
    ensures Counted(bits, [b] + bs, [push] + pushes)
         == (if b in bits && !push then 1 else 0) + Counted(bits - {b}, bs, pushes)
  {
    assert ([b] + bs)[1..] == bs && ([push] + pushes)[1..] == pushes;
  }

  lemma NoMore(bits: set<Bit>)
    ensures Gone([]) == {} && Queued(bits, [], []) == [] && Counted(bits, [], []) == 0
  {
  }

  /** A member looks at its mailbox: two events it drops, three it queues in this order, AllResume it leaves. */
  function MemberSteps(bits: set<Bit>): seq<Step>
  {
    [Look({0})] + (if (0, EntrySearch) in bits then [Ignore((0, EntrySearch))] else [])
    + (if (0, ErrorOccurred) in bits then [Ignore((0, ErrorOccurred))] else [])
    + DealAll(bits - {(0, EntrySearch)} - {(0, ErrorOccurred)}, [(0, EntrySend), (0, AllPause), (0, AllReexecute)],
              [true, true, true])
    + (if (0, AllResume) in bits then [Leave((0, AllResume))] else [])
  }

  lemma {:induction false} IgnoreRuns(s: State, b: Bit)
    requires s.taken == {} && (b in s.seen <==> b in s.bits)
    ensures
      var ts := if b in s.bits then [Ignore(b)] else [];
      Legal(s, ts) && Run(s, ts) == s.(bits := s.bits - {b}, seen := s.seen - {b})
  {
    if b in s.bits {
      assert [Ignore(b)][1..] == [];
      NoStep(Next(s, Ignore(b)));
    } else {
      assert s.bits - {b} == s.bits && s.seen - {b} == s.seen;
      NoStep(s);
    }
  }

  lemma {:induction false} LeaveRuns(s: State, b: Bit)
    requires b in s.bits <==> b in s.seen
    ensures
      var ts := if b in s.bits then [Leave(b)] else [];
      Legal(s, ts) && Run(s, ts) == s.(seen := s.seen - {b})
  {
    if b in s.bits {
      assert [Leave(b)][1..] == [];
      NoStep(Next(s, Leave(b)));
    } else {
      assert s.seen - {b} == s.seen;
      NoStep(s);
    }
  }

  lemma {:induction false} MemberIsRun(s: State)
    requires Idle(s)
    ensures
      var ts := MemberSteps(s.bits);
      && Legal(s, ts)
      && Run(s, ts) == s.(bits := (set b | b in s.bits && (b.0 != 0 || b.1 == AllResume)),
                          queue := s.queue + (if (0, EntrySend) in s.bits then [EntrySend] else [])
                                   + (if (0, AllPause) in s.bits then [AllPause] else [])
                                   + (if (0, AllReexecute) in s.bits then [AllReexecute] else []))
  {
    hide Legal, Run, DealAll, Queued, Counted, Gone;
    var es: Bit, eo: Bit, ar: Bit := (0, EntrySearch), (0, ErrorOccurred), (0, AllResume);
    var bs: seq<Bit>, ps := [(0, EntrySend), (0, AllPause), (0, AllReexecute)], [true, true, true];
    var x, y := if es in s.bits then [Ignore(es)] else [], if eo in s.bits then [Ignore(eo)] else [];
    var z, u := DealAll(s.bits - {es} - {eo}, bs, ps), if ar in s.bits then [Leave(ar)] else [];
    LookRuns(s, 0);
    var s1 := s.(seen := InBox(s.bits, 0));
    IgnoreRuns(s1, es);
    StepsThen(s, [Look({0})], x);
    var s2 := s1.(bits := s1.bits - {es}, seen := s1.seen - {es});
    IgnoreRuns(s2, eo);
    StepsThen(s, [Look({0})] + x, y);
    var s3 := s2.(bits := s2.bits - {eo}, seen := s2.seen - {eo});
    DealAllRuns(s3, bs, ps);
    StepsThen(s, [Look({0})] + x + y, z);
    var s4 := Run(s3, z);
    MemberUnrolled(s.bits, s.queue);
    LeaveRuns(s4, ar);
    StepsThen(s, [Look({0})] + x + y + z, u);
  }

  lemma {:induction false} MemberUnrolled(bits: set<Bit>, q: seq<Event>)
    ensures
      var bs: seq<Bit>, ps := [(0, EntrySend), (0, AllPause), (0, AllReexecute)], [true, true, true];
      var left := bits - {(0, EntrySearch)} - {(0, ErrorOccurred)};
      && left - Gone(bs) == (set b | b in bits && (b.0 != 0 || b.1 == AllResume))
      && InBox(bits, 0) - {(0, EntrySearch)} - {(0, ErrorOccurred)} - Gone(bs) - {(0, AllResume)} == {}
      && (0, AllResume) !in Gone(bs) && Counted(left, bs, ps) == 0
      && q + Queued(left, bs, ps) == q + (if (0, EntrySend) in bits then [EntrySend] else [])
                                     + (if (0, AllPause) in bits then [AllPause] else [])
                                     + (if (0, AllReexecute) in bits then [AllReexecute] else [])
  {
    hide Gone, Queued, Counted;
    var b3: seq<Bit> := [(0, AllReexecute)];
    var b2: seq<Bit> := [(0, AllPause)] + b3;
    var bs: seq<Bit> := [(0, EntrySend)] + b2;
    assert bs == [(0, EntrySend), (0, AllPause), (0, AllReexecute)];
    assert [true] + ([true] + ([true] + [])) == [true, true, true] && b3 == [(0, AllReexecute)] + [];
    var left := bits - {(0, EntrySearch)} - {(0, ErrorOccurred)};
    var x2 := left - {(0, EntrySend)};
    var x3 := x2 - {(0, AllPause)};
    OneMore(x3, (0, AllReexecute), [], true, []);
    OneMore(x2, (0, AllPause), b3, true, [true] + []);
    OneMore(left, (0, EntrySend), b2, true, [true] + ([true] + []));
    NoMore(x3 - {(0, AllReexecute)});
    forall b | b in bits && b.0 == 0 && b.1 != AllResume
      ensures b in {(0, EntrySearch), (0, ErrorOccurred)} + Gone(bs)
    {
      match b.1 case AllPause => case AllResume => case AllReexecute => case EntrySend => case EntrySearch =>
      case ErrorOccurred =>
    }
  }

  /** The head sends to itself: it bumps the counter, queues the handler and clears the bit. */
  lemma {:induction false} LocalIsRun(s: State, b: Bit)
    requires Idle(s) && s.pending < U32 - 1
    ensures
      var ts := [Bump(b), Register(b), Unset(b)];
      && Legal(s, ts)
      && Run(s, ts) == s.(pending := s.pending + 1, queue := s.queue + [b.1], bits := s.bits - {b})
  {
    var ts := [Bump(b), Register(b), Unset(b)];
    var t, u, v := Next(s, ts[0]), Next(Next(s, ts[0]), ts[1]), Next(Next(Next(s, ts[0]), ts[1]), ts[2]);
    assert ts[1..] == [Register(b), Unset(b)] && ts[1..][1..] == [Unset(b)] && ts[1..][1..][1..] == [];
    assert u.inflight == s.inflight;
    NoStep(v);
    assert Legal(u, ts[1..][1..]) && Legal(t, ts[1..]);
    assert Run(u, [Unset(b)]) == v && Run(t, ts[1..]) == v;
  }

  lemma {:induction false} OneBoxLess(s: set<Bit>, i: nat)
    ensures
      var rest := set b | b in s && b.0 >= i;
      rest - InBox(rest, i) == set b | b in s && b.0 >= i + 1
  {
  }

  class Receiver {
    var pending: nat
    var handled: nat
    var queue: seq<Event>
    var bits: set<Bit>
    var errorOccurred: bool

    ghost function Value(inflight: multiset<Bit>): State
      reads this`pending, this`handled, this`queue, this`bits
    {
      State(pending, handled, queue, bits, {}, {}, inflight)
    }

    constructor ()
      ensures Value(multiset{}) == START
    {
      pending, handled, queue, bits, errorOccurred := 0, 0, [], {}, false;
    }

    /** A handler is queued and the bit cleared, if it is set. */
    method Register(b: Bit, ghost lost: nat, ghost inflight: multiset<Bit>)
      requires Law(Value(inflight), lost)
      modifies this`queue, this`bits
      ensures Law(Value(inflight), lost)
      ensures bits == Less(old(bits), b) && queue == old(queue) + if b in old(bits) then [b.1] else []
    {
      if b in bits {
        Without(bits, b);
        assert bits - {} == bits && (bits - {b}) - {} == bits - {b};
        queue := queue + [b.1];
        bits := bits - {b};
      }
    }

    /** The bit counts as handled and is cleared, if it is set. */
    method CountBit(b: Bit, ghost lost: nat, ghost inflight: multiset<Bit>)
      requires Law(Value(inflight), lost)
      modifies this`handled, this`bits
      ensures Law(Value(inflight), lost)
      ensures bits == Less(old(bits), b) && handled + |bits| == old(handled) + |old(bits)|
      ensures handled == old(handled) + if b in old(bits) then 1 else 0
    {
      if b in bits {
        Without(bits, b);
        assert bits - {} == bits && (bits - {b}) - {} == bits - {b};
        handled := handled + 1;
        bits := bits - {b};
      }
    }

    /** HeadCD::ReadMailBox. Not ok: a bit that only members may get ends in an assertion. */
    method ReadAsHead(box: nat, ghost lost: nat, ghost inflight: multiset<Bit>) returns (ok: bool)
      requires Law(Value(inflight), lost)
      modifies this
      ensures Law(Value(inflight), lost) && pending == old(pending)
      ensures ok <==> (box, EntrySend) !in old(bits) && (box, AllPause) !in old(bits)
      ensures ok ==> bits == old(bits) - InBox(old(bits), box)
      ensures queue == old(queue)
                       + (if (box, ErrorOccurred) in old(bits) && !old(errorOccurred) then [ErrorOccurred] else [])
                       + (if (box, EntrySearch) in old(bits) then [EntrySearch] else [])
                       + (if (box, AllResume) in old(bits) then [AllResume] else [])
                       + (if (box, AllReexecute) in old(bits) then [AllReexecute] else [])
      ensures handled == old(handled) + if (box, ErrorOccurred) in old(bits) && old(errorOccurred) then 1 else 0
      ensures errorOccurred == (old(errorOccurred) || (box, ErrorOccurred) in old(bits))
    {
      ok := (box, EntrySend) !in bits && (box, AllPause) !in bits;
      HeadHandlersAre(queue, bits, box, errorOccurred);
      hide *;
      if errorOccurred {
        CountBit((box, ErrorOccurred), lost, inflight);
      } else {
        errorOccurred := (box, ErrorOccurred) in bits;
        Register((box, ErrorOccurred), lost, inflight);
      }
      Register((box, EntrySearch), lost, inflight);
      Register((box, AllResume), lost, inflight);
      Register((box, AllReexecute), lost, inflight);
      if ok {
        HeadEvents(old(bits), box);
      }
    }

    /** CD::ReadMailBox of a member: two events are dropped, and AllResume stays. */
    method ReadAsMember(ghost lost: nat, ghost inflight: multiset<Bit>)
      requires Law(Value(inflight), lost)
      modifies this`queue, this`bits
      ensures Law(Value(inflight), lost + |{(0, EntrySearch), (0, ErrorOccurred)} * old(bits)|)
      ensures bits == set b | b in old(bits) && (b.0 != 0 || b.1 == AllResume)
      ensures queue == old(queue)
                       + (if (0, EntrySend) in old(bits) then [EntrySend] else [])
                       + (if (0, AllPause) in old(bits) then [AllPause] else [])
                       + (if (0, AllReexecute) in old(bits) then [AllReexecute] else [])
    {
      MemberEvents(bits, queue);
      DroppedIs(bits);
      hide *;
      ghost var dropped := |Dropped(bits)|;
      DropMemberBits(lost, inflight);
      Register((0, EntrySend), lost + dropped, inflight);
      Register((0, AllPause), lost + dropped, inflight);
      Register((0, AllReexecute), lost + dropped, inflight);
    }

    method DropMemberBits(ghost lost: nat, ghost inflight: multiset<Bit>)
      requires Law(Value(inflight), lost)
      modifies this`bits
      ensures Law(Value(inflight), lost + |Dropped(old(bits))|) && bits == old(bits) - Dropped(old(bits))
    {
      DroppedKeepsLaw(Value(inflight), lost, Dropped(bits));
      hide Law;
      bits := bits - {(0, EntrySearch)};
      bits := bits - {(0, ErrorOccurred)};
      assert bits == old(bits) - Dropped(old(bits));
    }

    /** HeadCD::LocalSetMailBox: the head queues its own handler. Not ok: not an event for a head. */
    method LocalSetMailBox(e: Event, box: nat, ghost lost: nat, ghost inflight: multiset<Bit>) returns (ok: bool)
      requires Law(Value(inflight), lost) && pending < U32 - 1
      modifies this
      ensures ok <==> e.ErrorOccurred? || e.AllReexecute?
      ensures !ok ==> Value(inflight) == old(Value(inflight)) && errorOccurred == old(errorOccurred)
      ensures ok ==> Law(Value(inflight), lost + if (box, e) in old(bits) then 1 else 0)
      ensures ok ==> && pending == old(pending) + 1 && queue == old(queue) + [e] && bits == Less(old(bits), (box, e))
                     && errorOccurred == (old(errorOccurred) || e.ErrorOccurred?) && handled == old(handled)
    {
      ok := e.ErrorOccurred? || e.AllReexecute?;
      if ok {
        LocalKeepsLaw(Value(inflight), (box, e), lost);
        hide Law, Less;
        pending := (pending + 1) % U32;
        queue := queue + [e];
        bits := Less(bits, (box, e));
        errorOccurred := errorOccurred || e.ErrorOccurred?;
      }
    }

    method DecPendingCounter(ghost lost: nat, ghost inflight: multiset<Bit>)
      requires Law(Value(inflight), lost) && pending < U32
      modifies this`pending, this`handled
      ensures Law(Value(inflight), lost)
      ensures handled == 0 && pending == old(pending) - old(handled)
    {
      pending := (pending - handled) % U32;
      handled := 0;
    }

    /** CD::FinalizeMailBox: what is still in the CD's mailboxes counts as handled. */
    method FinalizeMailBox(boxes: nat, ghost lost: nat, ghost inflight: multiset<Bit>)
      requires Law(Value(inflight), lost) && pending < U32
      modifies this
      ensures Law(Value(inflight), lost)
      ensures bits == set b | b in old(bits) && b.0 >= boxes
      ensures handled == 0 && queue == old(queue)
      ensures pending == old(pending) - old(handled) - (|old(bits)| - |bits|)
    {
      hide Law, InBox;
      var i := 0;
      assert bits == set b | b in bits && b.0 >= 0;
      while i < boxes
        invariant i <= boxes && Law(Value(inflight), lost)
        invariant bits == set b | b in old(bits) && b.0 >= i
        invariant pending == old(pending) && queue == old(queue)
        invariant handled + |bits| == old(handled) + |old(bits)|
      {
        OneBoxLess(old(bits), i);
        FinalizeBox(i, lost, inflight);
        i := i + 1;
      }
      DecPendingCounter(lost, inflight);
    }

    method FinalizeBox(i: nat, ghost lost: nat, ghost inflight: multiset<Bit>)
      requires Law(Value(inflight), lost)
      modifies this`handled, this`bits
      ensures Law(Value(inflight), lost)
      ensures bits == old(bits) - InBox(old(bits), i) && handled + |bits| == old(handled) + |old(bits)|
    {
      hide Law, InBox, Less;
      CountBit((i, ErrorOccurred), lost, inflight);
      CountBit((i, AllReexecute), lost, inflight);
      CountBit((i, EntrySearch), lost, inflight);
      CountBit((i, EntrySend), lost, inflight);
      CountBit((i, AllPause), lost, inflight);
      CountBit((i, AllResume), lost, inflight);
      SixEvents(old(bits), i);
    }
  }
}
