/**
 Firmware updates over two flash banks: installing, the boot check with its rollback,
 committing, and the periodic poll. The state lives in a backup register that survives
 warm resets.
 */
module OtaBoot {

  datatype Register = Confirmed | Testing | Failed | RolledBack

  /** Images are numbers. `armed` says that the watchdog runs, `feeds` how often it was fed. */
  datatype Device = Device(reg: Register, active: nat, spare: nat, armed: bool, feeds: nat)

  /** `Flashed` is the end of an update whose image was written to the spare bank, `valid`
      when its checksum is right; `Reset` any warm reset, the watchdog's included; `Commit`
      the firmware confirming itself; `Poll` one call of `mg_ota_poll`: is a feed due, is the
      evaluation window still open, has the update server confirmed the version. */
  datatype Event =
    | Flashed(image: nat, valid: bool)
    | Reset
    | Commit
    | Poll(due: bool, inWindow: bool, served: bool)

  function Swapped(d: Device): Device {
    d.(active := d.spare, spare := d.active)
  }

  /** What the boot check makes of a device that has just reset; its rollback swaps the
      banks and resets once more, and the second check finds `RolledBack`. */
  function Booted(d: Device): Device {
    match d.reg
    case Failed => Swapped(d).(reg := RolledBack, armed := false)
    case Testing => d.(reg := Failed, armed := true)
    case _ => d.(armed := false)
  }

  function Step(d: Device, e: Event): Device {
    match e
    case Flashed(image, valid) =>
      var w := d.(spare := image);
      if valid then Booted(Swapped(w.(reg := Testing))) else w
    case Reset => Booted(d)
    case Commit => d.(reg := Confirmed)
    case Poll(due, inWindow, served) =>
      if d.reg.Testing? && due then
        if inWindow then d.(feeds := d.feeds + 1)
        else if served then d.(reg := Confirmed)
        else d
      else d
  }

  function Run(d: Device, evs: seq<Event>): Device {
    if evs == [] then d else Step(Run(d, evs[..|evs| - 1]), evs[|evs| - 1])
  }

  /** The register, the banks and the watchdog as the macros drive them. */
  class Target {
    var reg: Register
    var active: nat
    var spare: nat
    var armed: bool
    var feeds: nat

    ghost function State(): Device
      reads this
    {
      Device(reg, active, spare, armed, feeds)
    }

    method BootCheck()
      modifies this
      ensures State() == Booted(old(State()))
    {
      armed := false;
      if reg.Failed? {
        reg := RolledBack;
        active, spare := spare, active;
        // the reset that follows the swap boots into a check that finds RolledBack
      } else if reg.Testing? {
        reg := Failed;
        armed := true;
      }
    }

    method FlashEnd(image: nat, valid: bool) returns (ok: bool)
      modifies this
      ensures State() == Step(old(State()), Flashed(image, valid)) && ok == valid
    {
      spare := image;
      ok := valid;
      if ok {
        reg := Testing;
      }
      if ok {
        active, spare := spare, active;
        BootCheck();
      }
    }

    method OtaPoll(due: bool, inWindow: bool, served: bool)
      modifies this
      ensures State() == Step(old(State()), Poll(due, inWindow, served))
    {
      if reg.Testing? && due {
        if inWindow {
          feeds := feeds + 1;
        } else if served {
          reg := Confirmed;
        }
      }
    }
  }

  // ------------------------------------------------------------------ bookkeeping

  /** What became of the installs of a run: undone by a rollback, kept by a commit,
      overtaken by a later install; or the last one is still `open`, with the image that
      was active before it, which is `intact` until another image is written over it. */
  datatype Ledger = Ledger(installs: nat, undone: nat, kept: nat, overtaken: nat,
                           open: bool, prior: nat, intact: bool)

  function Record(l: Ledger, d: Device, e: Event): Ledger {
    match e
    case Flashed(image, valid) =>
      if valid then
        l.(installs := l.installs + 1, overtaken := if l.open then l.overtaken + 1 else l.overtaken,
           open := true, prior := d.active, intact := true)
      else l.(intact := false)
    case Reset => if d.reg.Failed? then l.(undone := l.undone + 1, open := false) else l
    case Commit => if l.open then l.(kept := l.kept + 1, open := false) else l
    case Poll(_, _, _) => l
  }

  function Recorded(d: Device, evs: seq<Event>): Ledger {
    if evs == [] then Ledger(0, 0, 0, 0, false, 0, false)
    else Record(Recorded(d, evs[..|evs| - 1]), Run(d, evs[..|evs| - 1]), evs[|evs| - 1])
  }

  /** A device that runs no firmware on probation. */
  predicate Settled(d: Device) {
    d.reg.Confirmed? || d.reg.RolledBack?
  }

  /** In every run each install is undone at most once, kept, overtaken or still open, so
      rollbacks never outnumber installs; a rollback is due exactly while an install is
      open, and it then restores the image that was active before that install, unless a
      failed update has been written over it. */
  lemma {:induction false} InstallsAreAccountedFor(d: Device, evs: seq<Event>)
    requires Settled(d)
    ensures var r, l := Run(d, evs), Recorded(d, evs);
      && l.installs == l.undone + l.kept + l.overtaken + (if l.open then 1 else 0)
      && !r.reg.Testing? && (r.reg.Failed? <==> l.open)
      && (l.open && l.intact ==> r.spare == l.prior && Step(r, Reset).active == l.prior)
    decreases |evs|
  {
    if evs != [] {
      InstallsAreAccountedFor(d, evs[..|evs| - 1]);
    }
  }

  /** An install came after the last reset. */
  predicate InstalledSinceReset(evs: seq<Event>) {
    evs != [] && (Installs(evs[|evs| - 1]) || (!evs[|evs| - 1].Reset? && InstalledSinceReset(evs[..|evs| - 1])))
  }

  /** In every run the watchdog is armed by an install and disarmed by the next reset; so it is
      armed whenever firmware is on probation. */
  lemma {:induction false} ArmedSinceInstall(d: Device, evs: seq<Event>)
    requires Settled(d) && !d.armed
    ensures Run(d, evs).armed <==> InstalledSinceReset(evs)
    ensures Recorded(d, evs).open ==> Run(d, evs).armed
    decreases |evs|
  {
    if evs != [] {
      ArmedSinceInstall(d, evs[..|evs| - 1]);
      InstallsAreAccountedFor(d, evs[..|evs| - 1]);
    }
  }

  predicate Installs(e: Event) {
    e.Flashed? && e.valid
  }

  predicate NoInstall(evs: seq<Event>) {
    forall k :: 0 <= k < |evs| ==> !Installs(evs[k])
  }

  /** Committed or rolled-back firmware is never swapped out, and the watchdog is never
      armed, until the next install: whatever resets, polls, commits and failed updates
      there are. */
  lemma {:induction false} SettledFirmwareStays(d: Device, evs: seq<Event>)
    requires Settled(d) && NoInstall(evs)
    ensures var r := Run(d, evs); Settled(r) && r.active == d.active && (!d.armed ==> !r.armed)
    decreases |evs|
  {
    if evs != [] {
      assert !Installs(evs[|evs| - 1]);
      SettledFirmwareStays(d, evs[..|evs| - 1]);
    }
  }

  /** The image that the last failed update left in the spare bank. */
  function Overwritten(before: nat, evs: seq<Event>): nat {
    if evs == [] then before
    else if evs[|evs| - 1].Flashed? then evs[|evs| - 1].image
    else Overwritten(before, evs[..|evs| - 1])
  }

  /** Neither an install, a commit nor a reset. */
  predicate Probation(evs: seq<Event>) {
    NoInstall(evs) && forall k :: 0 <= k < |evs| ==> !evs[k].Commit? && !evs[k].Reset?
  }

  lemma {:induction false} OnProbation(d: Device, evs: seq<Event>)
    requires d.reg.Failed? && Probation(evs)
    ensures Run(d, evs) == d.(spare := Overwritten(d.spare, evs))
    decreases |evs|
  {
    if evs != [] {
      assert !Installs(evs[|evs| - 1]) && !evs[|evs| - 1].Commit? && !evs[|evs| - 1].Reset?;
      OnProbation(d, evs[..|evs| - 1]);
    }
  }

  lemma {:induction false} RunAppend(d: Device, s: seq<Event>, t: seq<Event>)
    ensures Run(d, s + t) == Run(Run(d, s), t)
    decreases |t|
  {
    if t == [] {
      assert s + t == s;
    } else {
      RunAppend(d, s, t[..|t| - 1]);
      assert (s + t)[..|s + t| - 1] == s + t[..|t| - 1];
    }
  }

  /** No failed update brought this very image. */
  predicate NotBrought(image: nat, evs: seq<Event>) {
    forall k :: 0 <= k < |evs| && evs[k].Flashed? ==> evs[k].image != image
  }

  /** New firmware that is not committed before the next reset is rolled back, to what the spare
      bank holds by then. That is the image from before if no failed update has come in
      between, and only then unless the update brought the same image again. */
  lemma UncommittedIsUndone(d: Device, image: nat, evs: seq<Event>)
    requires Probation(evs)
    ensures var r := Run(d, [Flashed(image, true)] + evs + [Reset]);
      && r.reg.RolledBack? && r.spare == image && !r.armed
      && r.active == Overwritten(d.active, evs)
      && (NoFlash(evs) ==> r.active == d.active)
      && (NotBrought(d.active, evs) ==> (r.active == d.active <==> NoFlash(evs)))
  {
    var e := [Flashed(image, true)];
    RunAppend(d, e + evs, [Reset]);
    RunAppend(d, e, evs);
    RunOne(d, Flashed(image, true));
    RunOne(Run(d, e + evs), Reset);
    OnProbation(Run(d, e), evs);
    NothingOverwritten(d.active, evs);
    hide Run;
  }

  lemma RunOne(d: Device, e: Event)
    ensures Run(d, [e]) == Step(d, e)
  {
  }

  predicate NoFlash(evs: seq<Event>) {
    forall k :: 0 <= k < |evs| ==> !evs[k].Flashed?
  }

  lemma {:induction false} NothingOverwritten(before: nat, evs: seq<Event>)
    ensures NoFlash(evs) ==> Overwritten(before, evs) == before
    ensures NotBrought(before, evs) ==> (Overwritten(before, evs) == before <==> NoFlash(evs))
    decreases |evs|
  {
    if evs != [] {
      var rest, e := evs[..|evs| - 1], evs[|evs| - 1];
      NothingOverwritten(before, rest);
      assert evs == rest + [e];
    }
  }

  /** New firmware that is committed while on probation stays until the next install. */
  lemma CommittedStays(d: Device, image: nat, evs: seq<Event>, later: seq<Event>)
    requires Probation(evs) && NoInstall(later)
    ensures Run(d, [Flashed(image, true)] + evs + [Commit] + later).active == image
  {
    var e := [Flashed(image, true)];
    RunAppend(d, e + evs + [Commit], later);
    RunAppend(d, e + evs, [Commit]);
    RunAppend(d, e, evs);
    RunOne(d, Flashed(image, true));
    RunOne(Run(d, e + evs), Commit);
    OnProbation(Run(d, e), evs);
    SettledFirmwareStays(Run(d, e + evs + [Commit]), later);
    hide Run;
  }

  /** The documented automatic commit does not happen: the boot check always leaves the
      `Testing` state, so a poll neither feeds the watchdog nor commits, in any run. */
  lemma PollsDoNothing(d: Device, evs: seq<Event>, p: Event)
    requires Settled(d) && p.Poll?
    ensures Run(d, evs + [p]) == Run(d, evs)
  {
    InstallsAreAccountedFor(d, evs);
    RunAppend(d, evs, [p]);
    RunOne(Run(d, evs), p);
    hide Run;
  }

  /** Exactly when a poll commits, and when it feeds the watchdog: the boot check must not have run since the update. */
  lemma WhenAPollCommits(d: Device, p: Event)
    requires p.Poll? && !d.reg.Confirmed?
    ensures Step(d, p).reg.Confirmed? <==> d.reg.Testing? && p.due && !p.inWindow && p.served
    ensures Step(d, p).feeds == d.feeds + (if d.reg.Testing? && p.due && p.inWindow then 1 else 0)
    ensures !Step(Booted(d), p).reg.Confirmed? && Step(Booted(d), p).feeds == d.feeds
  {
  }
}
