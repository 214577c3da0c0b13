/**
 Storage enumeration (api/api_storage.c). The back end keeps two flags per
 storage group between calls; a call walks the groups and either returns the
 next device or moves on.
 */
module Storage {
  import opened ApiPublic

  const ENUM_IDE := 0
  const ENUM_MAX := 5

  /** What get_dev yields for one index: a cookie (0 is NULL) and whether the device is known. */
  datatype Disk = Disk(cookie: nat, active: bool)

  /** The devices of the groups ide, usb, scsi, mmc, sata; a group left out of the build is empty. */
  type Groups = g: seq<seq<Disk>> | |g| == ENUM_MAX witness seq(ENUM_MAX, _ => [])

  /** struct device_info without its payload. */
  datatype Desc = Desc(typ: bv32, cookie: nat, state: int)

  datatype Flags = Flags(started: seq<bool>, ended: seq<bool>)

  predicate GoodFlags(fl: Flags) {
    |fl.started| == |fl.ended| == ENUM_MAX
  }

  /** specs[type].type */
  function SpecType(group: nat): bv32 {
    match group
    case 0 => DEV_TYP_STOR | DT_STOR_IDE
    case 1 => DEV_TYP_STOR | DT_STOR_USB
    case 2 => DEV_TYP_STOR | DT_STOR_SCSI
    case 3 => DEV_TYP_STOR | DT_STOR_MMC
    case _ => DEV_TYP_STOR | DT_STOR_SATA
  }

  function GetDev(disks: seq<Disk>, i: nat): nat {
    if i < |disks| then disks[i].cookie else 0
  }

  /** The first index at which get_dev yields `cookie`, or |disks|. */
  function SlotOf(disks: seq<Disk>, cookie: nat): (i: nat)
    ensures i <= |disks|
    ensures forall j | 0 <= j < i :: disks[j].cookie != cookie
    ensures i < |disks| ==> disks[i].cookie == cookie
  {
    if disks == [] || disks[0].cookie == cookie then 0 else 1 + SlotOf(disks[1..], cookie)
  }

  /** dev_stor_type: the first group from `from` on that knows the cookie, or ENUM_MAX. */
  function StorType(groups: Groups, cookie: nat, from: nat): (g: nat)
    requires from <= ENUM_MAX
    ensures from <= g <= ENUM_MAX
    ensures g < ENUM_MAX ==> SlotOf(groups[g], cookie) < |groups[g]|
    ensures forall h | from <= h < g :: SlotOf(groups[h], cookie) == |groups[h]|
    decreases ENUM_MAX - from
  {
    if from == ENUM_MAX || SlotOf(groups[from], cookie) < |groups[from]| then from
    else StorType(groups, cookie, from + 1)
  }

  /** The result of a step of the enumeration: found or not, the hint `more`, and the descriptor. */
  datatype Got = Got(found: bool, more: bool, d: Desc)

  /** The end of dev_stor_get once slot i has been chosen. */
  function Take(disks: seq<Disk>, group: nat, i: nat, more: bool, d: Desc): Got
    requires i < |disks|
  {
    Got(disks[i].active, more, d.(typ := SpecType(group), cookie := disks[i].cookie))
  }

  function StorGet(disks: seq<Disk>, group: nat, first: bool, d: Desc): Got {
    if first then
      if GetDev(disks, 0) == 0 then Got(false, false, d.(cookie := 0)) else Take(disks, group, 0, false, d)
    else
      var i := SlotOf(disks, d.cookie) + 1;
      if GetDev(disks, i) == 0 then Got(false, false, d.(cookie := 0))
      else Take(disks, group, i, i + 1 < |disks|, d)
  }

  datatype Enumed = Enumed(found: bool, fl: Flags, d: Desc)

  function EnumStor(groups: Groups, group: nat, fl: Flags, d: Desc): (r: Enumed)
    requires group < ENUM_MAX && GoodFlags(fl)
    ensures GoodFlags(r.fl) && r.d.state == d.state
  {
    var mine := StorType(groups, d.cookie, ENUM_IDE) == group;
    if d.cookie != 0 && fl.ended[group] then Enumed(false, fl, d)
    else if d.cookie != 0 && !mine && fl.started[group] then
      Enumed(false, fl.(ended := fl.ended[group := true]), d)
    else
      var first := d.cookie == 0 || !mine;
      var got := StorGet(groups[group], group, first, d);
      var started := if first then fl.started[group := true] else fl.started;
      Enumed(got.found, Flags(started, fl.ended[group := !got.more]), got.d)
  }

  /** dev_enum_storage from group `from` on. */
  function EnumStorage(groups: Groups, from: nat, fl: Flags, d: Desc): (r: Enumed)
    requires from <= ENUM_MAX && GoodFlags(fl)
    ensures GoodFlags(r.fl) && r.d.state == d.state
    decreases ENUM_MAX - from
  {
    if from == ENUM_MAX then Enumed(false, fl, d)
    else
      var r := EnumStor(groups, from, fl, d);
      if r.found then r else EnumStorage(groups, from + 1, r.fl, r.d)
  }

  function ResetFlags(): (fl: Flags)
    ensures GoodFlags(fl)
  {
    Flags(seq(ENUM_MAX, _ => false), seq(ENUM_MAX, _ => false))
  }

  /** API_dev_enum on one descriptor, with `cur` the cookie of the current network interface. */
  function DevEnum(groups: Groups, cur: nat, fl: Flags, d: Desc): (r: Enumed)
    requires GoodFlags(fl)
    ensures GoodFlags(r.fl) && r.d.state == d.state
  {
    if d.cookie == 0 && cur != 0 then
      Enumed(true, ResetFlags(), d.(typ := DEV_TYP_NET, cookie := cur))
    else
      var r := if d.cookie == 0 then EnumStorage(groups, ENUM_IDE, ResetFlags(), d.(typ := DEV_TYP_NET))
               else EnumStorage(groups, ENUM_IDE, fl, d);
      if r.found then r else r.(d := r.d.(cookie := 0))
  }

  // ----- The C functions

  class DeviceInfo {
    var typ: bv32
    var cookie: nat
    var state: int

    constructor (d: Desc)
      ensures Value() == d
    {
      typ, cookie, state := d.typ, d.cookie, d.state;
    }

    function Value(): Desc
      reads this
    {
      Desc(typ, cookie, state)
    }
  }

  class Backend {
    const groups: Groups
    var started: seq<bool>
    var ended: seq<bool>

    ghost predicate Valid()
      reads this
    {
      GoodFlags(Now())
    }

    function Now(): Flags
      reads this
    {
      Flags(started, ended)
    }

    /** dev_stor_init */
    constructor (groups: Groups)
      ensures Valid() && this.groups == groups && Now() == ResetFlags()
    {
      this.groups := groups;
      started, ended := seq(ENUM_MAX, _ => false), seq(ENUM_MAX, _ => false);
    }

    method DevEnumReset()
      requires Valid()
      modifies this
      ensures Now() == ResetFlags()
    {
      for i := 0 to ENUM_MAX
        invariant Valid()
        invariant forall j | 0 <= j < i :: !started[j] && !ended[j]
      {
        started := started[i := false];
        ended := ended[i := false];
      }
    }

    method DevStorGet(group: nat, first: bool, di: DeviceInfo) returns (found: bool, more: bool)
      requires group < ENUM_MAX
      modifies di
      ensures Got(found, more, di.Value()) == StorGet(groups[group], group, first, old(di.Value()))
    {
      var disks := groups[group];
      found, more := false, false;
      var at := 0;
      if first {
        di.cookie := GetDev(disks, 0);
        if di.cookie == 0 {
          return false, false;
        }
        found := true;
      } else {
        var i := 0;
        while i < |disks|
          invariant 0 <= i <= |disks| && !found && !more
          invariant di.Value() == old(di.Value())
          invariant forall j | 0 <= j < i :: disks[j].cookie != di.cookie
        {
          if di.cookie == disks[i].cookie {
            SlotIs(disks, di.cookie, i);
            i := i + 1;
            if i >= |disks| {
              di.cookie := 0;
              break;
            }
            di.cookie := disks[i].cookie;
            if di.cookie == 0 {
              return false, false;
            }
            found, at := true, i;
            if i + 1 < |disks| {
              more := true;
            }
            break;
          }
          i := i + 1;
        }
        if !found {
          SlotOrEnd(disks, old(di.cookie));
        }
      }
      if found {
        di.typ := SpecType(group);
        if !disks[at].active {
          found := false;
        }
      } else {
        di.cookie := 0;
      }
    }

    method DevStorType(cookie: nat) returns (g: nat)
      ensures g == StorType(groups, cookie, ENUM_IDE)
    {
      g := ENUM_IDE;
      while g < ENUM_MAX
        invariant g <= ENUM_MAX && StorType(groups, cookie, g) == StorType(groups, cookie, ENUM_IDE)
      {
        var j := 0;
        while j < |groups[g]|
          invariant j <= |groups[g]| && forall k | 0 <= k < j :: groups[g][k].cookie != cookie
        {
          if groups[g][j].cookie == cookie {
            SlotIs(groups[g], cookie, j);
            return;
          }
          j := j + 1;
        }
        g := g + 1;
      }
    }

    method DevEnumStor(group: nat, di: DeviceInfo) returns (found: bool)
      requires Valid() && group < ENUM_MAX
      modifies this, di
      ensures Valid()
      ensures Enumed(found, Now(), di.Value()) == EnumStor(groups, group, old(Now()), old(di.Value()))
    {
      var more := false;
      if di.cookie == 0 {
        found, more := DevStorGet(group, true, di);
        started := started[group := true];
      } else {
        var kind := DevStorType(di.cookie);
        if ended[group] {
          return false;
        }
        if kind == group {
          found, more := DevStorGet(group, false, di);
        } else if !started[group] {
          started := started[group := true];
          found, more := DevStorGet(group, true, di);
        } else {
          found, more := false, false;
        }
      }
      ended := ended[group := !more];
    }

    method DevEnumStorage(di: DeviceInfo) returns (found: bool)
      requires Valid()
      modifies this, di
      ensures Valid()
      ensures Enumed(found, Now(), di.Value()) == EnumStorage(groups, ENUM_IDE, old(Now()), old(di.Value()))
    {
      for i := 0 to ENUM_MAX
        invariant Valid()
        invariant EnumStorage(groups, i, Now(), di.Value()) == EnumStorage(groups, ENUM_IDE, old(Now()), old(di.Value()))
      {
        found := DevEnumStor(i, di);
        if found {
          return true;
        }
      }
      return false;
    }

    /** dev_open_stor; the cookie must name a known device of some group. */
    method DevOpenStor(cookie: nat) returns (rc: int)
      ensures rc == StorOpenResult(groups, cookie)
    {
      var kind := DevStorType(cookie);
      if kind == ENUM_MAX {
        return API_ENODEV;
      }
      var disks := groups[kind];
      var i := 0;
      while i < |disks|
        invariant i <= |disks| && forall j | 0 <= j < i :: !(disks[j].cookie == cookie && disks[j].active)
      {
        if disks[i].cookie == cookie && disks[i].active {
          return 0;
        }
        i := i + 1;
      }
      return API_ENODEV;
    }
  }

  function StorOpenResult(groups: Groups, cookie: nat): int {
    var g := StorType(groups, cookie, ENUM_IDE);
    if g < ENUM_MAX && exists j | 0 <= j < |groups[g]| :: groups[g][j].cookie == cookie && groups[g][j].active
    then 0 else API_ENODEV
  }

  lemma SlotIs(disks: seq<Disk>, cookie: nat, i: nat)
    requires i < |disks| && disks[i].cookie == cookie
    requires forall j | 0 <= j < i :: disks[j].cookie != cookie
    ensures SlotOf(disks, cookie) == i
  {
  }

  lemma SlotOrEnd(disks: seq<Disk>, cookie: nat)
    ensures (forall j | 0 <= j < |disks| :: disks[j].cookie != cookie) ==> SlotOf(disks, cookie) == |disks|
  {
  }
}
