/**
 Which interface an open descriptor stands for. A close is matched with an open of
 the same device exactly as long as no open descriptor is enumerated anew.
 */
module Matching {
  import opened ApiPublic
  import opened Storage
  import opened Devices

  /** The event is an open of the device that the descriptor names. */
  predicate Names(e: Event, d: Desc) {
    && e.cookie == d.cookie
    && match ClassOf(d.typ)
       case Stor => e.kind == StorOpen(true)
       case Net => e.kind == NetInit(true)
       case Unknown => false
  }

  ghost predicate TrackedAt(w: World, id: nat) {
    IsOpen(w, id) ==> Last(w.log, id) >= 0 && Names(w.log[Last(w.log, id)], w.descs[id])
  }

  /** Every open descriptor still names the device that was opened through it. */
  ghost predicate Tracked(w: World) {
    forall id: nat :: TrackedAt(w, id)
  }

  /** The step does not turn an open descriptor into one for another device. */
  predicate Harmless(w: World, step: Step) {
    step.Enumerate? && IsOpen(w, step.id) ==>
      var d := w.descs[step.id];
      step.cookie == d.cookie && ClassOf(step.typ) == ClassOf(d.typ)
  }

  ghost predicate TrackedThroughout(w: World, steps: seq<Step>) {
    forall k | 0 <= k <= |steps| :: Tracked(Run(w, steps[..k]))
  }

  ghost predicate HarmlessRun(w: World, steps: seq<Step>) {
    forall k | 0 <= k < |steps| :: Harmless(Run(w, steps[..k]), steps[k])
  }

  lemma CallKeepsTracked(w: World, id: nat, d: Desc, cur: nat, e: Event)
    requires Tracked(w) && id in w.descs && e.id == id
    requires Opens(e) ==> Names(e, d)
    requires Closes(e) ==> d.state != DEV_STA_OPEN
    requires !Opens(e) && !Closes(e) ==> d == w.descs[id]
    ensures Tracked(World(w.descs[id := d], cur, w.log + [e]))
  {
    var now := World(w.descs[id := d], cur, w.log + [e]);
    forall x: nat ensures TrackedAt(now, x) {
      assert TrackedAt(w, x);
      LastStep(w.log, e, x);
    }
  }

  lemma QuietKeepsTracked(w: World, descs: map<nat, Desc>, cur: nat)
    requires Tracked(w) && descs.Keys == w.descs.Keys
    requires forall id | id in descs && descs[id].state == DEV_STA_OPEN ::
               w.descs[id].state == DEV_STA_OPEN && descs[id].cookie == w.descs[id].cookie
               && ClassOf(descs[id].typ) == ClassOf(w.descs[id].typ)
    ensures Tracked(World(descs, cur, w.log))
  {
    forall x: nat ensures TrackedAt(World(descs, cur, w.log), x) {
      assert TrackedAt(w, x);
    }
  }

  lemma HarmlessKeepsTracked(w: World, step: Step)
    requires Tracked(w) && Harmless(w, step)
    ensures Tracked(Do(w, step))
  {
    var now := Do(w, step);
    match step
    case Open(id, storRc, initRc, curAfter) =>
      if id in w.descs {
        var d := w.descs[id];
        var r := OpenCall(d, w.cur, storRc, initRc);
        if r.calls == [] {
          QuietKeepsTracked(w, now.descs, now.cur);
          assert now == World(now.descs, now.cur, w.log);
        } else {
          CallKeepsTracked(w, id, r.d, now.cur, Event(id, r.calls[0], d.cookie, w.cur, now.cur));
        }
      }
    case Close(id) =>
      if id in w.descs {
        var d := w.descs[id];
        var r := CloseCall(d, w.cur);
        if r.calls == [] {
          QuietKeepsTracked(w, now.descs, now.cur);
          assert now == World(now.descs, now.cur, w.log);
        } else {
          CallKeepsTracked(w, id, r.d, now.cur, Event(id, r.calls[0], d.cookie, w.cur, now.cur));
        }
      }
    case Enumerate(id, typ, cookie) =>
      if id in w.descs {
        QuietKeepsTracked(w, now.descs, now.cur);
      }
    case Transfer(_) =>
    case Switch(cur) => QuietKeepsTracked(w, w.descs, cur);
  }

  lemma HarmfulBreaksTracked(w: World, step: Step)
    requires Tracked(w) && !Harmless(w, step)
    ensures !Tracked(Do(w, step))
  {
    var now := Do(w, step);
    assert TrackedAt(w, step.id);
    assert IsOpen(now, step.id) && now.log == w.log;
    assert !TrackedAt(now, step.id);
  }

  lemma {:induction false} HarmlessTracks(w: World, steps: seq<Step>, k: nat)
    requires Initial(w) && HarmlessRun(w, steps) && k <= |steps|
    ensures Tracked(Run(w, steps[..k]))
  {
    if k == 0 {
    } else {
      HarmlessTracks(w, steps, k - 1);
      HarmlessKeepsTracked(Run(w, steps[..k - 1]), steps[k - 1]);
      assert steps[..k][..k - 1] == steps[..k - 1];
    }
  }

  /**
   Open descriptors keep standing for the device opened through them at every point of
   a run, exactly when no open descriptor is enumerated into another device.
   */
  lemma TrackedIffHarmless(w: World, steps: seq<Step>)
    requires Initial(w)
    ensures TrackedThroughout(w, steps) <==> HarmlessRun(w, steps)
  {
    if HarmlessRun(w, steps) {
      forall k | 0 <= k <= |steps| ensures Tracked(Run(w, steps[..k])) {
        HarmlessTracks(w, steps, k);
      }
    }
    if TrackedThroughout(w, steps) {
      forall k | 0 <= k < |steps| ensures Harmless(Run(w, steps[..k]), steps[k]) {
        assert steps[..k + 1][..k] == steps[..k];
        assert Run(w, steps[..k + 1]) == Do(Run(w, steps[..k]), steps[k]);
        assert Tracked(Run(w, steps[..k])) && Tracked(Run(w, steps[..k + 1]));
        if !Harmless(Run(w, steps[..k]), steps[k]) {
          HarmfulBreaksTracked(Run(w, steps[..k]), steps[k]);
        }
      }
    }
  }

  /** The close at index p answers the last open through the same descriptor, and of the same cookie. */
  ghost predicate MatchedAt(log: seq<Event>, p: nat)
    requires p < |log|
  {
    var i := Last(log[..p], log[p].id);
    && i >= 0
    && log[i].kind == (if log[p].kind == NetHalt then NetInit(true) else StorOpen(true))
    && log[i].cookie == log[p].cookie
  }

  ghost predicate Matched(log: seq<Event>) {
    forall p | 0 <= p < |log| && Closes(log[p]) :: MatchedAt(log, p)
  }

  lemma MatchedStep(w: World, e: Event)
    requires Matched(w.log) && Tracked(w)
    requires Closes(e) ==> IsOpen(w, e.id) && e.cookie == w.descs[e.id].cookie
                           && ClassOf(w.descs[e.id].typ) == if e.kind == NetHalt then Net else Stor
    ensures Matched(w.log + [e])
  {
    var now := w.log + [e];
    forall p | 0 <= p < |now| && Closes(now[p]) ensures MatchedAt(now, p) {
      if p < |w.log| {
        assert MatchedAt(w.log, p);
        assert now[..p] == w.log[..p];
      } else {
        assert TrackedAt(w, e.id);
        assert now[..p] == w.log;
      }
    }
  }

  lemma {:induction false} HarmlessMatches(w: World, steps: seq<Step>, k: nat)
    requires Initial(w) && HarmlessRun(w, steps) && k <= |steps|
    ensures Matched(Run(w, steps[..k]).log)
  {
    if k == 0 {
    } else {
      HarmlessMatches(w, steps, k - 1);
      HarmlessTracks(w, steps, k - 1);
      var before := Run(w, steps[..k - 1]);
      RunIsSound(w, steps[..k - 1]);
      assert steps[..k][..k - 1] == steps[..k - 1];
      StepMatches(before, steps[k - 1]);
    }
  }

  /** In a harmless run every eth_halt answers a successful eth_init through the same descriptor and cookie. */
  lemma HaltsAnswerInits(w: World, steps: seq<Step>)
    requires Initial(w) && HarmlessRun(w, steps)
    ensures Matched(Run(w, steps).log)
  {
    HarmlessMatches(w, steps, |steps|);
    assert steps[..|steps|] == steps;
  }

  lemma StepMatches(w: World, step: Step)
    requires Consistent(w) && Matched(w.log) && Tracked(w)
    ensures Matched(Do(w, step).log)
  {
    var now := Do(w, step);
    match step
    case Open(id, storRc, initRc, _) =>
      if id in w.descs {
        var d := w.descs[id];
        var r := OpenCall(d, w.cur, storRc, initRc);
        if r.calls != [] {
          MatchedStep(w, Event(id, r.calls[0], d.cookie, w.cur, now.cur));
        } else {
          assert Do(w, step).log == w.log;
        }
      }
    case Close(id) =>
      if id in w.descs {
        var d := w.descs[id];
        var r := CloseCall(d, w.cur);
        if r.calls != [] {
          MatchedStep(w, Event(id, r.calls[0], d.cookie, w.cur, now.cur));
        } else {
          assert Do(w, step).log == w.log;
        }
      }
    case _ =>
  }

  // ----- The interface that runs

  /** The open that the halt at p answers left the interface current that the halt stops. */
  ghost predicate HaltsItsOwn(log: seq<Event>) {
    forall p | 0 <= p < |log| && log[p].kind == NetHalt ::
      Last(log[..p], log[p].id) >= 0 && log[Last(log[..p], log[p].id)].after == log[p].cur
  }

  /** That open, a successful eth_init, kept the interface it was asked for. */
  ghost predicate OpensKept(log: seq<Event>) {
    forall p | 0 <= p < |log| && log[p].kind == NetHalt ::
      Last(log[..p], log[p].id) >= 0
      && log[Last(log[..p], log[p].id)].after == log[Last(log[..p], log[p].id)].cookie
  }

  /**
   In a harmless run every halt stops the interface that the matching open brought up,
   exactly when each of these opens kept its interface; `AlwaysClosesIff` says when
   eth_init cannot do otherwise.
   */
  lemma HaltsItsOwnIff(w: World, steps: seq<Step>)
    requires Initial(w) && HarmlessRun(w, steps)
    ensures HaltsItsOwn(Run(w, steps).log) <==> OpensKept(Run(w, steps).log)
  {
    var log := Run(w, steps).log;
    HaltsAnswerInits(w, steps);
    RunIsSound(w, steps);
    forall p | 0 <= p < |log| && log[p].kind == NetHalt
      ensures Last(log[..p], log[p].id) >= 0
      ensures log[Last(log[..p], log[p].id)].cookie == log[p].cur
    {
      assert MatchedAt(log, p);
    }
  }

  // ----- One holder at a time

  predicate SameDevice(a: Desc, b: Desc) {
    a.cookie == b.cookie && ClassOf(a.typ) == ClassOf(b.typ)
  }

  /** Another open descriptor names the device d. */
  ghost predicate HeldByOther(w: World, id: nat, d: Desc) {
    exists other: nat :: other != id && IsOpen(w, other) && SameDevice(w.descs[other], d)
  }

  /** No device is open through two descriptors. */
  ghost predicate OneHolder(w: World) {
    forall id: nat | IsOpen(w, id) :: !HeldByOther(w, id, w.descs[id])
  }

  /**
   The caller does not open a device that another open descriptor names, nor turn an
   open descriptor into such a device. An open that reaches no driver, or whose driver
   refuses, does not count.
   */
  ghost predicate Polite(w: World, step: Step) {
    match step
    case Open(id, storRc, initRc, _) =>
      id in w.descs && GoesThrough(w.descs[id], w.cur, storRc, initRc) ==>
        !HeldByOther(w, id, w.descs[id])
    case Enumerate(id, typ, cookie) =>
      IsOpen(w, id) ==> !HeldByOther(w, id, w.descs[id].(typ := typ, cookie := cookie))
    case _ => true
  }

  ghost predicate OneHolderThroughout(w: World, steps: seq<Step>) {
    forall k | 0 <= k <= |steps| :: OneHolder(Run(w, steps[..k]))
  }

  ghost predicate PoliteRun(w: World, steps: seq<Step>) {
    forall k | 0 <= k < |steps| :: Polite(Run(w, steps[..k]), steps[k])
  }

  /** The device of one descriptor changed: it has one holder exactly when no other open descriptor names it. */
  lemma ChangedHolder(w: World, now: World, id: nat)
    requires OneHolder(w) && id in w.descs && id in now.descs
    requires forall x: nat | x != id :: IsOpen(now, x) == IsOpen(w, x) && (IsOpen(w, x) ==> now.descs[x] == w.descs[x])
    ensures OneHolder(now) <==> (IsOpen(now, id) ==> !HeldByOther(w, id, now.descs[id]))
  {
    var d := now.descs[id];
    if IsOpen(now, id) && HeldByOther(w, id, d) {
      var other: nat :| other != id && IsOpen(w, other) && SameDevice(w.descs[other], d);
      assert HeldByOther(now, id, d);
    } else {
      forall x: nat | IsOpen(now, x) ensures !HeldByOther(now, x, now.descs[x]) {
        if x != id {
          assert !HeldByOther(w, x, w.descs[x]);
          assert IsOpen(now, id) && SameDevice(d, w.descs[x]) ==> HeldByOther(w, id, d);
        }
      }
    }
  }

  lemma StepHolderIff(w: World, step: Step)
    requires OneHolder(w)
    ensures OneHolder(Do(w, step)) <==> Polite(w, step)
  {
    var now := Do(w, step);
    match step
    case Open(id, storRc, initRc, _) =>
      if id in w.descs {
        OpenSucceedsIff(w.descs[id], w.cur, storRc, initRc);
        ChangedHolder(w, now, id);
        assert IsOpen(w, id) ==> !HeldByOther(w, id, w.descs[id]);
        assert HeldByOther(w, id, now.descs[id]) <==> HeldByOther(w, id, w.descs[id]);
      }
    case Close(id) =>
      if id in w.descs {
        ChangedHolder(w, now, id);
        assert IsOpen(w, id) ==> !HeldByOther(w, id, w.descs[id]);
      }
    case Enumerate(id, _, _) =>
      if id in w.descs {
        ChangedHolder(w, now, id);
      }
    case Transfer(_) =>
    case Switch(_) =>
      assert forall x: nat :: IsOpen(now, x) == IsOpen(w, x);
      assert forall x: nat, d :: HeldByOther(now, x, d) == HeldByOther(w, x, d);
  }

  lemma {:induction false} PoliteHolds(w: World, steps: seq<Step>, k: nat)
    requires Initial(w) && PoliteRun(w, steps) && k <= |steps|
    ensures OneHolder(Run(w, steps[..k]))
  {
    if k == 0 {
      assert steps[..0] == [];
    } else {
      PoliteHolds(w, steps, k - 1);
      StepHolderIff(Run(w, steps[..k - 1]), steps[k - 1]);
      assert steps[..k][..k - 1] == steps[..k - 1];
    }
  }

  /** A device has one consumer at a time, at every point of a run, exactly when every step is polite. */
  lemma OneHolderIff(w: World, steps: seq<Step>)
    requires Initial(w)
    ensures OneHolderThroughout(w, steps) <==> PoliteRun(w, steps)
  {
    if PoliteRun(w, steps) {
      forall k | 0 <= k <= |steps| ensures OneHolder(Run(w, steps[..k])) {
        PoliteHolds(w, steps, k);
      }
    }
    if OneHolderThroughout(w, steps) {
      forall k | 0 <= k < |steps| ensures Polite(Run(w, steps[..k]), steps[k]) {
        assert steps[..k + 1][..k] == steps[..k];
        assert Run(w, steps[..k + 1]) == Do(Run(w, steps[..k]), steps[k]);
        assert OneHolder(Run(w, steps[..k])) && OneHolder(Run(w, steps[..k + 1]));
        StepHolderIff(Run(w, steps[..k]), steps[k]);
      }
    }
  }

  // ----- What the API does not rule out

  /** The state is the caller's, so one device can be open through two descriptors at once. */
  lemma TwoHolders(cookie: nat, typ: bv32)
    requires cookie != 0 && ClassOf(typ) != Unknown
    ensures var closed := Desc(typ, cookie, DEV_STA_CLOSED);
            var w := World(map[0 := closed, 1 := closed], cookie, []);
            var now := Run(w, [Open(0, 0, 0, cookie), Open(1, 0, 0, cookie)]);
            Initial(w) && IsOpen(now, 0) && IsOpen(now, 1) && now.descs[0].cookie == now.descs[1].cookie
  {
    var closed := Desc(typ, cookie, DEV_STA_CLOSED);
    var w := World(map[0 := closed, 1 := closed], cookie, []);
    var a, b := Open(0, 0, 0, cookie), Open(1, 0, 0, cookie);
    assert [a, b][..1] == [a] && [a][..0] == [];
    assert Run(w, [a]) == Do(w, a);
    assert Run(w, [a, b]) == Do(Run(w, [a]), b);
  }

  /**
   A net descriptor that is enumerated while open, and so becomes a storage one, is
   closed without eth_halt: everything is closed, and the interface still runs.
   */
  lemma EnumerateLosesHalt(net: nat, disk: nat)
    requires net != 0 && disk != 0
    ensures var w := World(map[0 := Desc(DEV_TYP_NET, net, DEV_STA_CLOSED)], net, []);
            var now := Run(w, [Open(0, 0, 0, net), Enumerate(0, DEV_TYP_STOR, disk), Close(0)]);
            && Initial(w) && OpenIds(now) == {}
            && now.log == [Event(0, NetInit(true), net, net, net), Event(0, StorClose, disk, net, net)]
            && !Matched(now.log)
  {
    var w := World(map[0 := Desc(DEV_TYP_NET, net, DEV_STA_CLOSED)], net, []);
    var a, b, c: Step := Open(0, 0, 0, net), Enumerate(0, DEV_TYP_STOR, disk), Close(0);
    assert [a, b, c][..2] == [a, b] && [a, b][..1] == [a] && [a][..0] == [];
    assert Run(w, [a]) == Do(w, a);
    assert Run(w, [a, b]) == Do(Run(w, [a]), b);
    var now := Run(w, [a, b, c]);
    assert now == Do(Run(w, [a, b]), c);
    assert now.log[..1] == [now.log[0]];
    assert !MatchedAt(now.log, 1);
  }
}
