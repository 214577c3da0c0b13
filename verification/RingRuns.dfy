/**
 Runs of opens and closes over a ring of interfaces, where nothing but eth_init changes
 the current one: does a close halt the interface that its own open brought up?
 */
module RingRuns {
  import opened ApiPublic
  import opened Storage
  import opened Network
  import opened Devices
  import opened Matching

  ghost predicate GoodRing(ifs: seq<nat>) {
    && ifs != [] && (forall i | 0 <= i < |ifs| :: ifs[i] != 0)
    && forall i, j | 0 <= i < j < |ifs| :: ifs[i] != ifs[j]
  }

  /** What eth_init on the ring can answer, and leave current, when c is current. */
  ghost predicate InitAnswer(ifs: seq<nat>, rotate: bool, c: nat, initRc: int, after: nat) {
    exists i: nat, up: seq<bool> :: AnswerBy(ifs, rotate, c, initRc, after, i, up)
  }

  ghost predicate AnswerBy(ifs: seq<nat>, rotate: bool, c: nat, initRc: int, after: nat, i: nat, up: seq<bool>) {
    && i < |ifs| == |up| && c == ifs[i]
    && var r := EthInitResult(up, rotate, i);
    initRc == r.0 && r.1 < |ifs| && after == ifs[r.1]
  }

  /** Some behaviour of the drivers explains the step. */
  ghost predicate FromRing(ifs: seq<nat>, rotate: bool, w: World, step: Step) {
    match step
    case Open(_, _, initRc, after) => InitAnswer(ifs, rotate, w.cur, initRc, after)
    case Switch(_) => false
    case _ => true
  }

  ghost predicate RingRun(ifs: seq<nat>, rotate: bool, w: World, steps: seq<Step>) {
    forall k | 0 <= k < |steps| :: FromRing(ifs, rotate, Run(w, steps[..k]), steps[k])
  }

  /** In no harmless run over the ring does a close halt what another open has brought up. */
  ghost predicate NeverCrossed(ifs: seq<nat>, rotate: bool) {
    forall w: World, steps: seq<Step> | Initial(w) && RingRun(ifs, rotate, w, steps) && HarmlessRun(w, steps) ::
      HaltsItsOwn(Run(w, steps).log)
  }

  // ----- Without another interface to turn to

  /** Every successful eth_init left the interface current that it was asked for. */
  ghost predicate Straight(log: seq<Event>) {
    forall p | 0 <= p < |log| && log[p].kind == NetInit(true) :: log[p].after == log[p].cookie
  }

  lemma StayingAnswer(ifs: seq<nat>, rotate: bool, c: nat, initRc: int, after: nat)
    requires InitAnswer(ifs, rotate, c, initRc, after) && (!rotate || |ifs| == 1)
    ensures after == c
  {
  }

  lemma StraightStep(ifs: seq<nat>, rotate: bool, w: World, step: Step)
    requires Straight(w.log) && FromRing(ifs, rotate, w, step) && (!rotate || |ifs| == 1)
    ensures Straight(Do(w, step).log)
  {
    if step.Open? {
      StayingAnswer(ifs, rotate, w.cur, step.initRc, step.curAfter);
    }
  }

  lemma {:induction false} StraightRun(ifs: seq<nat>, rotate: bool, w: World, steps: seq<Step>, k: nat)
    requires Initial(w) && RingRun(ifs, rotate, w, steps) && (!rotate || |ifs| == 1) && k <= |steps|
    ensures Straight(Run(w, steps[..k]).log)
  {
    if k == 0 {
    } else {
      StraightRun(ifs, rotate, w, steps, k - 1);
      StraightStep(ifs, rotate, Run(w, steps[..k - 1]), steps[k - 1]);
      assert steps[..k][..k - 1] == steps[..k - 1];
    }
  }

  lemma StraightKept(w: World, steps: seq<Step>)
    requires Initial(w) && HarmlessRun(w, steps) && Straight(Run(w, steps).log)
    ensures HaltsItsOwn(Run(w, steps).log)
  {
    var log := Run(w, steps).log;
    HaltsAnswerInits(w, steps);
    HaltsItsOwnIff(w, steps);
    forall p | 0 <= p < |log| && log[p].kind == NetHalt
      ensures Last(log[..p], log[p].id) >= 0
      ensures log[Last(log[..p], log[p].id)].after == log[Last(log[..p], log[p].id)].cookie
    {
      assert MatchedAt(log, p);
    }
  }

  // ----- With one

  /** The interface at i does not come up and the one at j does, alone. */
  lemma OnlyOne(ifs: seq<nat>, i: nat, j: nat)
    requires i < |ifs| && j < |ifs| && i != j
    ensures InitAnswer(ifs, true, ifs[i], 0, ifs[j])
  {
    var up := OnlyUp(|ifs|, j);
    var d := if i < j then j - i else j + |ifs| - i;
    assert Ahead(i, d, |ifs|) == j && up[j];
    assert EthInitResult(up, true, i) == (0, j);
    assert AnswerBy(ifs, true, ifs[i], 0, ifs[j], i, up);
  }

  /**
   Two interfaces, a descriptor for each. The open of the first brings up the second, and
   the open of the second the first; the close of the first descriptor then halts the interface
   that the second one has brought up. No descriptor is enumerated, nobody else interferes.
   */
  lemma HaltsAnother(ifs: seq<nat>)
    requires GoodRing(ifs) && |ifs| > 1
    ensures var x, y := ifs[0], ifs[1];
            var w := World(map[0 := Desc(DEV_TYP_NET, x, DEV_STA_CLOSED), 1 := Desc(DEV_TYP_NET, y, DEV_STA_CLOSED)], x, []);
            var steps := [Open(0, 0, 0, y), Open(1, 0, 0, x), Close(0)];
            && Initial(w) && RingRun(ifs, true, w, steps) && HarmlessRun(w, steps)
            && Run(w, steps).log == [Event(0, NetInit(true), x, x, y), Event(1, NetInit(true), y, y, x), Event(0, NetHalt, x, x, x)]
            && !HaltsItsOwn(Run(w, steps).log)
  {
    var x, y := ifs[0], ifs[1];
    var w := World(map[0 := Desc(DEV_TYP_NET, x, DEV_STA_CLOSED), 1 := Desc(DEV_TYP_NET, y, DEV_STA_CLOSED)], x, []);
    var a, b, c: Step := Open(0, 0, 0, y), Open(1, 0, 0, x), Close(0);
    var steps := [a, b, c];
    assert ClassOf(DEV_TYP_NET) == Net;
    assert steps[..0] == [] && steps[..1] == [a] && steps[..2] == [a, b] && steps[..3] == steps;
    assert [a][..0] == [] && [a, b][..1] == [a];
    assert Run(w, [a]) == Do(w, a);
    assert Run(w, [a, b]) == Do(Run(w, [a]), b);
    var now := Run(w, steps);
    assert now == Do(Run(w, [a, b]), c);
    OnlyOne(ifs, 0, 1);
    OnlyOne(ifs, 1, 0);
    assert Run(w, []).cur == x && Run(w, [a]).cur == y;
    LastOf(now.log);
  }

  lemma LastOf(log: seq<Event>)
    requires |log| == 3 && log[0].id == 0 && Opens(log[0]) && log[1].id == 1
    ensures Last(log[..2], 0) == 0
  {
    var two, one := log[..2], log[..1];
    assert two[1] == log[1] && two[..1] == one && one[0] == log[0];
    assert Last(one, 0) == 0;
  }

  /**
   Whatever the drivers do: in every harmless run over the ring each close halts the interface
   that its own open brought up, exactly when rotation is off or there is only one interface.
   */
  lemma NeverCrossedIff(ifs: seq<nat>, rotate: bool)
    requires GoodRing(ifs)
    ensures NeverCrossed(ifs, rotate) <==> !rotate || |ifs| == 1
  {
    if !rotate || |ifs| == 1 {
      forall w: World, steps: seq<Step> | Initial(w) && RingRun(ifs, rotate, w, steps) && HarmlessRun(w, steps)
        ensures HaltsItsOwn(Run(w, steps).log)
      {
        StraightRun(ifs, rotate, w, steps, |steps|);
        assert steps[..|steps|] == steps;
        StraightKept(w, steps);
      }
    } else {
      HaltsAnother(ifs);
    }
  }
}
