/** What happens to each buffer over a whole run, as a log of events on both sides of the
    wire, and the order the protocol asks for. */
module ShmHistory {
  import opened Options
  import opened ShmSlots

  /** The client creates, writes, commits and destroys buffers; the compositor releases
      them; the client is told later. */
  datatype Wire =
    | Created(buf: nat)
    | Written(buf: nat)
    | Committed(buf: nat, w: nat, h: nat)
    | LetGo(buf: nat)
    | Told(buf: nat)
    | Destroyed(buf: nat)

  datatype Status = Unborn | Idle | InUse | Returning | Gone

  function After(e: Wire): Status {
    match e
    case Created(_) => Idle
    case Written(_) => Idle
    case Committed(_, _, _) => InUse
    case LetGo(_) => Returning
    case Told(_) => Idle
    case Destroyed(_) => Gone
  }

  function StatusOf(log: seq<Wire>, b: nat): Status {
    if log == [] then Unborn
    else
      var n := |log| - 1;
      if log[n].buf == b then After(log[n]) else StatusOf(log[..n], b)
  }

  /** The client touches a buffer only while it is neither in use nor on its way back; a
      buffer is returned only from use, and the client told once. */
  predicate Allowed(s: Status, e: Wire) {
    match e
    case Created(_) => s.Unborn?
    case LetGo(_) => s.InUse?
    case Told(_) => s.Returning?
    case _ => s.Idle?
  }

  predicate Orderly(log: seq<Wire>) {
    log == [] || (Orderly(log[..|log| - 1]) && Allowed(StatusOf(log[..|log| - 1], log[|log| - 1].buf), log[|log| - 1]))
  }

  /** Buffers the compositor let go, and those the client was told of, in order. */
  function LetGoIn(log: seq<Wire>): seq<nat> {
    if log == [] then []
    else LetGoIn(log[..|log| - 1]) + if log[|log| - 1].LetGo? then [log[|log| - 1].buf] else []
  }

  function ToldIn(log: seq<Wire>): seq<nat> {
    if log == [] then []
    else ToldIn(log[..|log| - 1]) + if log[|log| - 1].Told? then [log[|log| - 1].buf] else []
  }

  function CommitsIn(log: seq<Wire>): seq<Commit> {
    if log == [] then []
    else
      var e := log[|log| - 1];
      CommitsIn(log[..|log| - 1]) + if e.Committed? then [Commit(e.buf, e.w, e.h)] else []
  }

  // ---------------------------------------------------------------- what order means

  /** From a commit on, until the client is told of its release, a buffer is in use or on
      its way back. */
  lemma {:induction false} BusyUntilTold(log: seq<Wire>, j: nat, k: nat)
    requires Orderly(log) && j < k <= |log| && log[j].Committed?
    requires forall m | j < m < k :: log[m] != Told(log[j].buf)
    ensures StatusOf(log[..k], log[j].buf).InUse? || StatusOf(log[..k], log[j].buf).Returning?
    ensures (forall m | j < m < k :: log[m] != LetGo(log[j].buf)) ==> StatusOf(log[..k], log[j].buf).InUse?
    decreases k
  {
    assert log[..k][..k - 1] == log[..k - 1];
    if j + 1 < k {
      BusyUntilTold(log, j, k - 1);
      OrderlyAt(log, k - 1);
    }
  }

  lemma {:induction false} OrderlyAt(log: seq<Wire>, k: nat)
    requires Orderly(log) && k < |log|
    ensures Allowed(StatusOf(log[..k], log[k].buf), log[k])
    decreases |log|
  {
    var n := |log| - 1;
    if k < n {
      OrderlyAt(log[..n], k);
      assert log[..n][..k] == log[..k];
    }
  }

  /** No buffer is written, committed again or destroyed before the compositor let go of
      its last use and the client was told. */
  lemma UntouchedWhileInUse(log: seq<Wire>, j: nat, k: nat)
    requires Orderly(log) && j < k < |log| && log[j].Committed? && log[k].buf == log[j].buf
    requires log[k].Written? || log[k].Committed? || log[k].Destroyed?
    ensures exists m, n :: j < m < n < k && log[m] == LetGo(log[j].buf) && log[n] == Told(log[j].buf)
  {
    var b := log[j].buf;
    OrderlyAt(log, k);
    if forall n | j < n < k :: log[n] != Told(b) {
      BusyUntilTold(log, j, k);
    } else {
      var n := FirstTold(log, j, k);
      OrderlyAt(log, n);
      BusyUntilTold(log, j, n);
      if m :| j < m < n && log[m] == LetGo(b) {
        assert j < m < n < k && log[m] == LetGo(b) && log[n] == Told(b);
      }
    }
  }

  lemma {:induction false} FirstTold(log: seq<Wire>, j: nat, k: nat) returns (n: nat)
    requires j < k <= |log| && log[j].Committed? && exists m :: j < m < k && log[m] == Told(log[j].buf)
    ensures j < n < k && log[n] == Told(log[j].buf) && forall m | j < m < n :: log[m] != Told(log[j].buf)
    decreases k
  {
    if exists m :: j < m < k - 1 && log[m] == Told(log[j].buf) {
      n := FirstTold(log, j, k - 1);
    } else {
      n := k - 1;
    }
  }

  // ---------------------------------------------------------------- the log and the slots

  /** The log agrees with what is held, returning and ever created. */
  ghost predicate Counted(log: seq<Wire>, user: map<nat, nat>, held: set<nat>, releases: seq<nat>) {
    && Orderly(log) && LetGoIn(log) == ToldIn(log) + releases
    && (forall b: nat :: b in held <==> StatusOf(log, b).InUse?)
    && (forall b: nat :: b in releases <==> StatusOf(log, b).Returning?)
    && (forall b: nat :: b in user <==> !StatusOf(log, b).Unborn?)
  }

  /** The slots hold different buffers, created and not destroyed. */
  ghost predicate Kept(log: seq<Wire>, slots: Slots) {
    && (forall i | 0 <= i < NUM_SLOTS && slots[i].Some? :: Alive(log, slots[i].value.buf))
    && (forall i, j | 0 <= i < j < NUM_SLOTS && slots[i].Some? && slots[j].Some? :: slots[i].value.buf != slots[j].value.buf)
  }

  predicate Alive(log: seq<Wire>, b: nat) { !StatusOf(log, b).Unborn? && !StatusOf(log, b).Gone? }

  ghost predicate Recorded(log: seq<Wire>, slots: Slots, user: map<nat, nat>, held: set<nat>, releases: seq<nat>) {
    Counted(log, user, held, releases) && Kept(log, slots)
  }

  lemma Appended(log: seq<Wire>, e: Wire)
    ensures Orderly(log + [e]) <==> Orderly(log) && Allowed(StatusOf(log, e.buf), e)
    ensures LetGoIn(log + [e]) == LetGoIn(log) + if e.LetGo? then [e.buf] else []
    ensures ToldIn(log + [e]) == ToldIn(log) + if e.Told? then [e.buf] else []
    ensures CommitsIn(log + [e]) == CommitsIn(log) + if e.Committed? then [Commit(e.buf, e.w, e.h)] else []
  {
    assert (log + [e])[..|log|] == log;
  }

  lemma StatusAppended(log: seq<Wire>, e: Wire, b: nat)
    ensures StatusOf(log + [e], b) == if b == e.buf then After(e) else StatusOf(log, b)
  {
    assert (log + [e])[..|log|] == log;
  }

  /** Whatever happens to one buffer but its end, the slots keep theirs. */
  lemma StillKept(log: seq<Wire>, slots: Slots, e: Wire)
    requires Kept(log, slots) && !e.Destroyed?
    ensures Kept(log + [e], slots)
  {
    hide StatusOf;
    forall i | 0 <= i < NUM_SLOTS && slots[i].Some? ensures Alive(log + [e], slots[i].value.buf) {
      StatusAppended(log, e, slots[i].value.buf);
    }
  }

  lemma CountAfter(log: seq<Wire>, user: map<nat, nat>, held: set<nat>, releases: seq<nat>, e: Wire,
                   user': map<nat, nat>, held': set<nat>, releases': seq<nat>)
    requires Counted(log, user, held, releases) && Allowed(StatusOf(log, e.buf), e)
    requires forall b: nat :: b in user' <==> b in user || b == e.buf
    requires forall b: nat :: b in held' <==> if b == e.buf then e.Committed? else b in held
    requires forall b: nat :: b in releases' <==> if b == e.buf then e.LetGo? else b in releases
    requires LetGoIn(log + [e]) == ToldIn(log + [e]) + releases'
    ensures Counted(log + [e], user', held', releases')
  {
    hide StatusOf, Orderly, LetGoIn, ToldIn;
    Appended(log, e);
    forall b: nat
      ensures b in held' <==> StatusOf(log + [e], b).InUse?
      ensures b in releases' <==> StatusOf(log + [e], b).Returning?
      ensures b in user' <==> !StatusOf(log + [e], b).Unborn?
    {
      StatusAppended(log, e, b);
    }
  }

  lemma RecordCreated(log: seq<Wire>, slots: Slots, user: map<nat, nat>, held: set<nat>, releases: seq<nat>, i: nat, s: Slot)
    requires Recorded(log, slots, user, held, releases) && i < NUM_SLOTS && slots[i].None? && s.buf !in user
    ensures Recorded(log + [Created(s.buf)], slots[i := Some(s)], user[s.buf := i], held, releases)
  {
    hide StatusOf, Orderly, LetGoIn, ToldIn;
    var e := Created(s.buf);
    assert StatusOf(log, s.buf).Unborn? && s.buf !in held && s.buf !in releases;
    Appended(log, e);
    assert LetGoIn(log) + [] == LetGoIn(log) && ToldIn(log) + [] == ToldIn(log);
    CountAfter(log, user, held, releases, e, user[s.buf := i], held, releases);
    StillKept(log, slots, e);
    StatusAppended(log, e, s.buf);
    hide Counted;
  }

  lemma NothingRecorded(slots: Slots)
    requires forall i | 0 <= i < NUM_SLOTS :: slots[i].None?
    ensures Recorded([], slots, map[], {}, []) && CommitsIn([]) == []
  {
  }

  lemma RecordSame(log: seq<Wire>, slots: Slots, user: map<nat, nat>, held: set<nat>, releases: seq<nat>, i: nat, s: Slot)
    requires Recorded(log, slots, user, held, releases) && i < NUM_SLOTS && slots[i].Some? && s.buf == slots[i].value.buf
    ensures Recorded(log, slots[i := Some(s)], user, held, releases)
  {
    hide Counted;
    SameBuffer(log, slots, i, s);
  }

  /** A slot whose buffer is not in use: it may be written, committed or destroyed. */
  lemma IsIdle(log: seq<Wire>, slots: Slots, user: map<nat, nat>, held: set<nat>, releases: seq<nat>, i: nat)
    requires Recorded(log, slots, user, held, releases) && i < NUM_SLOTS && slots[i].Some?
    requires slots[i].value.buf !in held && slots[i].value.buf !in releases
    ensures StatusOf(log, slots[i].value.buf).Idle?
  {
    hide Orderly, StatusOf, LetGoIn, ToldIn;
    assert Alive(log, slots[i].value.buf);
  }

  /** A slot is marked released exactly while its buffer is with the client: not while it
      is in use, nor while its release is still on its way. */
  lemma ReleasedIffIdle(log: seq<Wire>, slots: Slots, w: nat, h: nat, user: map<nat, nat>, held: set<nat>, releases: seq<nat>)
    requires Disciplined(slots, w, h, user, held, releases) && Recorded(log, slots, user, held, releases)
    ensures forall i | 0 <= i < NUM_SLOTS && slots[i].Some? :: slots[i].value.released <==> StatusOf(log, slots[i].value.buf).Idle?
  {
    hide Orderly, StatusOf, LetGoIn, ToldIn;
    forall i | 0 <= i < NUM_SLOTS && slots[i].Some?
      ensures slots[i].value.released <==> StatusOf(log, slots[i].value.buf).Idle?
    {
      assert SlotOk(slots[i].value, i, w, h, user, held, releases) && Alive(log, slots[i].value.buf);
    }
  }

  lemma RecordedIsOrderly(log: seq<Wire>, slots: Slots, user: map<nat, nat>, held: set<nat>, releases: seq<nat>)
    requires Recorded(log, slots, user, held, releases)
    ensures Orderly(log) && LetGoIn(log) == ToldIn(log) + releases
  {
  }

  lemma RecordWritten(log: seq<Wire>, slots: Slots, user: map<nat, nat>, held: set<nat>, releases: seq<nat>, i: nat)
    requires Recorded(log, slots, user, held, releases) && i < NUM_SLOTS && slots[i].Some?
    requires slots[i].value.buf !in held && slots[i].value.buf !in releases
    ensures Recorded(log + [Written(slots[i].value.buf)], slots, user, held, releases)
  {
    hide Orderly, StatusOf, LetGoIn, ToldIn, Kept, Alive;
    var e := Written(slots[i].value.buf);
    IsIdle(log, slots, user, held, releases, i);
    StillKept(log, slots, e);
    Appended(log, e);
    assert LetGoIn(log) + [] == LetGoIn(log) && ToldIn(log) + [] == ToldIn(log);
    CountAfter(log, user, held, releases, e, user, held, releases);
  }

  lemma RecordCommitted(log: seq<Wire>, slots: Slots, user: map<nat, nat>, held: set<nat>, releases: seq<nat>, i: nat, w: nat, h: nat, next: Slot)
    requires Recorded(log, slots, user, held, releases) && i < NUM_SLOTS && slots[i].Some?
    requires slots[i].value.buf !in held && slots[i].value.buf !in releases && next.buf == slots[i].value.buf
    ensures Recorded(log + [Committed(next.buf, w, h)], slots[i := Some(next)], user, held + {next.buf}, releases)
  {
    hide Orderly, StatusOf, LetGoIn, ToldIn, Kept, Alive;
    var e := Committed(next.buf, w, h);
    IsIdle(log, slots, user, held, releases, i);
    StillKept(log, slots, e);
    SameBuffer(log + [e], slots, i, next);
    Appended(log, e);
    assert LetGoIn(log) + [] == LetGoIn(log) && ToldIn(log) + [] == ToldIn(log);
    CountAfter(log, user, held, releases, e, user, held + {next.buf}, releases);
  }

  /** A slot may change in anything but its buffer. */
  lemma SameBuffer(log: seq<Wire>, slots: Slots, i: nat, s: Slot)
    requires Kept(log, slots) && i < NUM_SLOTS && slots[i].Some? && s.buf == slots[i].value.buf
    ensures Kept(log, slots[i := Some(s)])
  {
    hide Alive;
  }

  lemma RecordDestroyed(log: seq<Wire>, slots: Slots, user: map<nat, nat>, held: set<nat>, releases: seq<nat>, i: nat)
    requires Recorded(log, slots, user, held, releases) && i < NUM_SLOTS && slots[i].Some?
    requires slots[i].value.buf !in held && slots[i].value.buf !in releases
    ensures Recorded(log + [Destroyed(slots[i].value.buf)], slots[i := None], user, held, releases)
  {
    hide Orderly, StatusOf, LetGoIn, ToldIn, Alive;
    var e := Destroyed(slots[i].value.buf);
    IsIdle(log, slots, user, held, releases, i);
    OthersKept(log, slots, i);
    Appended(log, e);
    assert LetGoIn(log) + [] == LetGoIn(log) && ToldIn(log) + [] == ToldIn(log);
    CountAfter(log, user, held, releases, e, user, held, releases);
  }

  lemma OthersKept(log: seq<Wire>, slots: Slots, i: nat)
    requires Kept(log, slots) && i < NUM_SLOTS && slots[i].Some?
    ensures Kept(log + [Destroyed(slots[i].value.buf)], slots[i := None])
  {
    hide StatusOf;
    var e, next := Destroyed(slots[i].value.buf), slots[i := None];
    forall j | 0 <= j < NUM_SLOTS && next[j].Some? ensures Alive(log + [e], next[j].value.buf) {
      StatusAppended(log, e, next[j].value.buf);
    }
  }

  lemma RecordLetGo(log: seq<Wire>, slots: Slots, user: map<nat, nat>, held: set<nat>, releases: seq<nat>, b: nat)
    requires Recorded(log, slots, user, held, releases) && b in held
    ensures Recorded(log + [LetGo(b)], slots, user, held - {b}, releases + [b])
  {
    hide Orderly, StatusOf, LetGoIn, ToldIn, Kept, Alive;
    var e := LetGo(b);
    StillKept(log, slots, e);
    Appended(log, e);
    assert ToldIn(log) + [] == ToldIn(log);
    assert (ToldIn(log) + releases) + [b] == ToldIn(log) + (releases + [b]);
    assert b !in releases && StatusOf(log, b).InUse?;
    CountAfter(log, user, held, releases, e, user, held - {b}, releases + [b]);
  }

  lemma RecordTold(log: seq<Wire>, slots: Slots, user: map<nat, nat>, held: set<nat>, releases: seq<nat>)
    requires Recorded(log, slots, user, held, releases) && releases != [] && releases[0] !in releases[1..]
    ensures Recorded(log + [Told(releases[0])], slots, user, held, releases[1..])
  {
    hide Orderly, StatusOf, LetGoIn, ToldIn, Kept, Alive;
    var b, rest := releases[0], releases[1..];
    var e := Told(b);
    StillKept(log, slots, e);
    Appended(log, e);
    assert releases == [b] + rest;
    forall x: nat ensures x in releases <==> x == b || x in rest {}
    assert LetGoIn(log) + [] == LetGoIn(log);
    assert ToldIn(log) + releases == (ToldIn(log) + [b]) + rest;
    assert b in releases && StatusOf(log, b).Returning?;
    CountAfter(log, user, held, releases, e, user, held, rest);
  }

  /** While fewer buffers are in use or on their way back than there are slots, one is
      usable. */
  lemma RoomLeft(slots: Slots, w: nat, h: nat, user: map<nat, nat>, held: set<nat>, releases: seq<nat>)
    requires Disciplined(slots, w, h, user, held, releases) && |held| + |releases| < NUM_SLOTS
    ensures AnyUsable(slots)
  {
    if !Usable(slots[0]) && !Usable(slots[1]) && !Usable(slots[2]) {
      AllBusy(slots, w, h, user, held, releases);
    } else {
      var i := if Usable(slots[0]) then 0 else if Usable(slots[1]) then 1 else 2;
      assert Usable(slots[i]);
    }
  }

  lemma AllBusy(slots: Slots, w: nat, h: nat, user: map<nat, nat>, held: set<nat>, releases: seq<nat>)
    requires Disciplined(slots, w, h, user, held, releases)
    requires !Usable(slots[0]) && !Usable(slots[1]) && !Usable(slots[2])
    ensures |held| + |releases| >= NUM_SLOTS
  {
    Busy(slots, w, h, user, held, releases, 0);
    Busy(slots, w, h, user, held, releases, 1);
    Busy(slots, w, h, user, held, releases, 2);
    hide Disciplined;
    var b0, b1, b2 := slots[0].value.buf, slots[1].value.buf, slots[2].value.buf;
    var returning := Elements(releases);
    assert |{b0, b1, b2}| == 3;
    Smaller({b0, b1, b2}, held + returning);
    AtMost(releases);
    assert |held + returning| + |held * returning| == |held| + |returning|;
  }

  ghost function Elements(s: seq<nat>): set<nat> { set b | b in s }

  lemma Busy(slots: Slots, w: nat, h: nat, user: map<nat, nat>, held: set<nat>, releases: seq<nat>, i: nat)
    requires Disciplined(slots, w, h, user, held, releases) && i < NUM_SLOTS && !Usable(slots[i])
    ensures var b := slots[i].value.buf; b in user && user[b] == i && (b in held || b in releases)
  {
    assert SlotOk(slots[i].value, i, w, h, user, held, releases);
  }

  lemma {:induction false} Smaller(a: set<nat>, b: set<nat>)
    requires a <= b
    ensures |a| <= |b|
  {
    if a != {} {
      var x :| x in a;
      Smaller(a - {x}, b - {x});
    }
  }

  lemma {:induction false} AtMost(s: seq<nat>)
    ensures |Elements(s)| <= |s|
  {
    if s != [] {
      AtMost(s[1..]);
      assert s == [s[0]] + s[1..];
      assert Elements(s) == Elements(s[1..]) + {s[0]};
    }
  }
}
