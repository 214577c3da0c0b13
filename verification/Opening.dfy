/**
 From enumerating a device to opening it: which devices can be opened, and that the
 descriptors API_dev_enum hands out are of the kind API_dev_open needs.
 */
module Opening {
  import opened Storage
  import opened Sweep
  import opened Devices

  /** The back end opens a cookie exactly when it names a device that is present; else there is no such device. */
  lemma StorOpensIff(groups: Groups, cookie: nat)
    requires Apart(groups) && cookie != 0
    ensures var rc := StorOpenResult(groups, cookie);
            && (rc == 0 <==> exists g: nat, i: nat :: Present(groups, g, i) && groups[g][i].cookie == cookie)
            && (rc == 0 || rc == 2)
  {
    var at := StorType(groups, cookie, ENUM_IDE);
    if g: nat, i: nat :| Present(groups, g, i) && groups[g][i].cookie == cookie {
      ElsewhereNot(groups, g, i);
      assert SlotOf(groups[g], cookie) < |groups[g]|;
    }
    if StorOpenResult(groups, cookie) == 0 {
      var j :| 0 <= j < |groups[at]| && groups[at][j].cookie == cookie && groups[at][j].active;
      assert Present(groups, at, j);
    }
  }

  /** The class of a descriptor, by the bits of its type: storage goes first. */
  lemma ClassByBits(typ: bv32)
    ensures ClassOf(typ) == if typ & 0x0002 != 0 then Stor else if typ & 0x0001 != 0 then Net else Unknown
  {
  }

  /**
   Opening a closed storage descriptor: 0, and the descriptor is open, exactly when its cookie
   names a device that is present; else API_ENODEV, and nothing changes.
   */
  lemma OpenStorageIff(groups: Groups, d: Desc, cur: nat, initRc: int)
    requires Apart(groups) && d.state == 0 && d.typ & 0x0002 != 0
    ensures var r := OpenCall(d, cur, StorOpenResult(groups, d.cookie), initRc);
            && (r.rc == 0 <==> d.cookie != 0
                               && exists g: nat, i: nat :: Present(groups, g, i) && groups[g][i].cookie == d.cookie)
            && (r.rc == 0 ==> r.d == d.(state := 1))
            && (r.rc != 0 ==> r.rc == 2 && r.d == d)
  {
    ClassByBits(d.typ);
    if d.cookie != 0 {
      StorOpensIff(groups, d.cookie);
    }
  }

  /**
   Opening a closed net descriptor: 0 exactly when it names the current interface and eth_init
   succeeds; API_EIO when eth_init fails, API_ENODEV for any other cookie.
   */
  lemma OpenNetIff(d: Desc, cur: nat, storRc: int, initRc: int)
    requires d.state == 0 && d.typ & 0x0003 == 0x0001
    ensures var r := OpenCall(d, cur, storRc, initRc);
            && r.rc == (if d.cookie == 0 || d.cookie != cur then 2 else if initRc < 0 then 5 else 0)
            && r.d == (if r.rc == 0 then d.(state := 1) else d)
  {
    NetBits(d.typ);
  }

  lemma NetBits(typ: bv32)
    requires typ & 0x0003 == 0x0001
    ensures ClassOf(typ) == Net
  {
    assert typ & 0x0002 == 0 && typ & 0x0001 == 1;
  }

  /** Descriptors that cannot be opened at all: open ones are busy, and a type of neither kind has no device. */
  lemma OpenRefused(d: Desc, cur: nat, storRc: int, initRc: int)
    requires d.state == 1 || d.typ & 0x0003 == 0
    ensures var r := OpenCall(d, cur, storRc, initRc);
            r.rc == (if d.state == 1 then 4 else 2) && r.d == d && r.calls == []
  {
    assert d.typ & 0x0003 == 0 ==> d.typ & 0x0002 == 0 && d.typ & 0x0001 == 0;
  }

  /** Closing: 0 and nothing to do when closed; else as the open found it, by kind, cookie and current interface. */
  lemma CloseResult(d: Desc, cur: nat)
    ensures var r := CloseCall(d, cur);
            && r.rc == (if d.state == 0 then 0
                        else if d.cookie == 0 then 2
                        else if d.typ & 0x0002 != 0 then 0
                        else if d.typ & 0x0001 != 0 && d.cookie == cur then 0 else 2)
            && r.d == (if r.rc == 0 then d.(state := 0) else d)
  {
    ClassByBits(d.typ);
  }

  lemma GroupTypeIsStorage(g: nat, typ: bv32)
    requires g < ENUM_MAX && GroupType(g, typ)
    ensures typ & 0x0002 != 0 && ClassOf(typ) == Stor
  {
  }

  /** Every storage device that API_dev_enum hands out, in whatever state of flags and descriptor, can be opened. */
  lemma EnumeratedOpens(groups: Groups, d: Desc, cur: nat, initRc: int)
    requires Apart(groups) && NamesDisk(groups, d) && d.cookie != 0 && d.state == 0
    ensures ClassOf(d.typ) == Stor && OpenCall(d, cur, StorOpenResult(groups, d.cookie), initRc).rc == 0
  {
    var g: nat, i: nat :| Present(groups, g, i) && groups[g][i].cookie == d.cookie && GroupType(g, d.typ);
    GroupTypeIsStorage(g, d.typ);
    OpenStorageIff(groups, d, cur, initRc);
  }

  /**
   Everything a sweep yields is of the right kind: the interface is a net device, which can be
   opened if its driver comes up, and each of the others is a storage device, which can be opened.
   */
  lemma SweepOpens(groups: Groups, curs: nat -> nat, fl: Flags, d: Desc, k: nat, storRc: int, initRc: int)
    requires Apart(groups) && FreshInterface(groups, curs(0)) && d.cookie == 0 && d.state == 0 && GoodFlags(fl)
    requires k < |Expected(groups, curs(0))|
    ensures var now := SweepRun(groups, curs, fl, d, k).d;
            if k == 0 && curs(0) != 0
            then ClassOf(now.typ) == Net
                 && (OpenCall(now, curs(0), storRc, initRc).rc == 0 <==> initRc >= 0)
            else ClassOf(now.typ) == Stor
                 && OpenCall(now, curs(k), StorOpenResult(groups, now.cookie), initRc).rc == 0
  {
    var now := SweepRun(groups, curs, fl, d, k).d;
    SweepMid(groups, curs, fl, d, k);
    if k == 0 && curs(0) != 0 {
      FirstIsNet(groups, curs, fl, d);
      OpenNetIff(now, curs(0), storRc, initRc);
      NetBits(now.typ);
    } else {
      SweepType(groups, curs, fl, d, k);
      EnumeratedOpens(groups, now, curs(k), initRc);
    }
  }

  /** One IDE disk with cookie 5 and no interface: the first call hands it out with type 0x12, and it opens. */
  lemma LoneDisk(fl: Flags, initRc: int)
    requires GoodFlags(fl)
    ensures var groups: Groups := [[Disk(5, true)], [], [], [], []];
            var now := DevEnum(groups, 0, fl, Desc(0, 0, 0)).d;
            now == Desc(0x0012, 5, 0) && OpenCall(now, 0, StorOpenResult(groups, 5), initRc).rc == 0
  {
    var groups: Groups := [[Disk(5, true)], [], [], [], []];
    var curs, d := (k: nat) => 0, Desc(0, 0, 0);
    assert Present(groups, 0, 0) && Apart(groups);
    LeadBelowStep(groups, 0);
    SweepByGroup(groups, curs, fl, d);
    assert SweepRun(groups, curs, fl, d, 0) == DevEnum(groups, 0, fl, d);
    assert groups[0][0].cookie == 5;
    OpenStorageIff(groups, DevEnum(groups, 0, fl, d).d, 0, initRc);
  }
}
