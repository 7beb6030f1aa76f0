/** How recovery and the bootloader hand over to each other through the bootloader control
    block and the cache partition: firmware.c and the main program of recovery.c, in the
    build that keeps the control block in NAND.

    Each program makes a series of persistent changes, and the power may fail between any
    two of them. A run is cut short by giving it less power than it has changes to make. */
module RestartProtocol {
  import opened Wrappers  // Option
  import opened Series
  import opened BcbArgs

  // ---------------------------------------------------------------- persistent state

  datatype Cache =
    | Filesystem(commandFile: Option<seq<Line>>)
    | Destroyed       // neither a file system nor a complete update image
    | CompleteImage

  // The control block, the cache, and how often the cache has been formatted.
  datatype State = State(command: string, recovery: Field, cache: Cache, formatted: nat)

  datatype Change =
    | SetMessage(command: string, recovery: Field)
    | Destroy
    | MakeFilesystem
    | FinishImage
    | WriteCommandFile(args: seq<Line>)
    | RemoveCommandFile

  function Next(s: State, c: Change): State {
    match c
    case SetMessage(command, recovery) => s.(command := command, recovery := recovery)
    case Destroy => s.(cache := Destroyed)
    case MakeFilesystem => s.(cache := Filesystem(None), formatted := s.formatted + 1)
    case FinishImage => s.(cache := CompleteImage)
    case WriteCommandFile(args) => if s.cache.Filesystem? then s.(cache := Filesystem(Some(args))) else s
    case RemoveCommandFile => if s.cache.Filesystem? then s.(cache := Filesystem(None)) else s
  }

  function Apply(s: State, changes: seq<Change>): State {
    Fold(Next, s, changes)
  }

  function Cut(plan: seq<Change>, power: nat): seq<Change> {
    if power < |plan| then plan[..power] else plan
  }

  // ---------------------------------------------------------------- options

  datatype Options = Options(intent: Option<string>, package: Option<string>, wipeData: bool, wipeCache: bool)

  const SEND_INTENT := "--send_intent="
  const UPDATE_PACKAGE := "--update_package="
  const WIPE_DATA := "--wipe_data"
  const WIPE_CACHE := "--wipe_cache"

  function WithOption(o: Options, arg: string): Options {
    if SEND_INTENT <= arg then o.(intent := Some(arg[|SEND_INTENT|..]))
    else if UPDATE_PACKAGE <= arg then o.(package := Some(arg[|UPDATE_PACKAGE|..]))
    else if arg == WIPE_DATA then o.(wipeData := true, wipeCache := true)
    else if arg == WIPE_CACHE then o.(wipeCache := true)
    else o
  }

  function Parse(args: seq<string>): Options {
    if args == [] then Options(None, None, false, false)
    else WithOption(Parse(args[..|args|-1]), args[|args|-1])
  }

  /** What the last argument adds, by its text. */
  lemma OptionMeans(args: seq<string>, value: string)
    ensures Parse([]) == Options(None, None, false, false)
    ensures Parse(args + ["--wipe_data"]) == Parse(args).(wipeData := true, wipeCache := true)
    ensures Parse(args + ["--wipe_cache"]) == Parse(args).(wipeCache := true)
    ensures Parse(args + ["--send_intent=" + value]) == Parse(args).(intent := Some(value))
    ensures Parse(args + ["--update_package=" + value]) == Parse(args).(package := Some(value))
  {
    NoOptions();
    OneMore(args, "--wipe_data");
    OneMore(args, "--wipe_cache");
    OneMore(args, "--send_intent=" + value);
    OneMore(args, "--update_package=" + value);
    hide Parse;
    PlainOption(Parse(args), "--wipe_data");
    PlainOption(Parse(args), "--wipe_cache");
    IntentOption(Parse(args), value);
    PackageOption(Parse(args), value);
    hide WithOption;
  }

  lemma PlainOption(o: Options, arg: string)
    requires arg == "--wipe_data" || arg == "--wipe_cache"
    ensures WithOption(o, arg) == if arg == "--wipe_data" then o.(wipeData := true, wipeCache := true) else o.(wipeCache := true)
  {
    assert arg[2] == 'w' && SEND_INTENT[2] == 's' && UPDATE_PACKAGE[2] == 'u';
  }

  lemma IntentOption(o: Options, value: string)
    ensures WithOption(o, "--send_intent=" + value) == o.(intent := Some(value))
  {
    assert ("--send_intent=" + value)[14..] == value && SEND_INTENT <= SEND_INTENT + value;
  }

  lemma PackageOption(o: Options, value: string)
    ensures WithOption(o, "--update_package=" + value) == o.(package := Some(value))
  {
    var arg := "--update_package=" + value;
    assert arg[17..] == value && UPDATE_PACKAGE <= UPDATE_PACKAGE + value;
    assert arg[2] == 'u' && SEND_INTENT[2] == 's';
  }

  lemma NoOptions()
    ensures Parse([]) == Options(None, None, false, false)
  {
  }

  lemma OneMore(args: seq<string>, arg: string)
    ensures Parse(args + [arg]) == WithOption(Parse(args), arg)
  {
    assert (args + [arg])[..|args|] == args;
  }

  /** A boot with these arguments formats the cache and installs nothing. */
  predicate Wipes(args: seq<string>) { Parse(args).wipeCache && Parse(args).package.None? }

  // ---------------------------------------------------------------- one boot

  // The type that write_radio_image and write_hboot_image give to their image.
  type Firmware = f: string | f == "radio" || f == "hboot" witness "radio"

  function UpdateCommand(f: Firmware): string { "update-" + f }

  predicate IsUpdate(command: string) { command == "update-radio" || command == "update-hboot" }

  // A firmware image a package asks to remember, and its length.
  datatype Image = Image(firmware: Firmware, length: nat)

  // What write_update_for_bootloader comes to; see UpdateOutcome. Misreported is a run that
  // returns 0 without the promised layout.
  datatype Outcome = NotStarted | Partial | Whole | Misreported

  predicate Reported(image: Outcome) { image.Whole? || image.Misreported? }

  // How far format_root_device got.
  datatype Formatting = Untouched | Broken | Done

  // What the calls of finish_recovery at one place achieve.
  datatype Finish = Finish(cleared: bool, removed: bool)

  // What happens during one boot that the programs do not decide.
  datatype Events = Events(
    power: nat,                 // changes that can be made before the power fails
    forced: bool,               // recovery was asked for by key or by the main system
    request: Option<seq<Line>>, // what the main system puts into the command file
    blockRead: bool,            // get_args could read the control block
    ignored: bool,              // get_args was told to ignore it
    fileRead: bool,             // get_args could read the command file, if there is one
    saved: bool,                // get_args could write the control block
    images: seq<Image>,         // firmware in the package
    installed: bool,            // the package installed apart from that
    dataWiped: bool,
    textVisible: bool,
    armed: bool,                // the wipe message could be written
    image: Outcome,             // of write_update_for_bootloader
    instructed: bool,           // the update command could be written
    rebootReturns: bool,
    format: Formatting,         // of the cache
    formatTold: bool,           // format_root_device returned 0 for it
    atPrompt: Finish,
    atEnd: Finish)

  /** Statics of firmware.c. */
  class FirmwareUpdate {
    var pending: Option<Image>

    constructor ()
      ensures pending == None
    {
      pending := None;
    }

    /** remember_firmware_update: the first image stays. */
    method Remember(image: Image) returns (r: int)
      modifies this
      ensures pending == (if old(pending).None? then Some(image) else old(pending))
      ensures r == if old(pending).None? then 0 else -1
    {
      if pending.Some? {
        return -1;
      }
      pending := Some(image);
      r := 0;
    }
  }

  /** Starting from a state and with this power, the planned changes were made as far as
      the power lasted. */
  ghost predicate CameTo(before: State, had: nat, plan: seq<Change>, after: State, left: nat) {
    && after == Apply(before, Cut(plan, had))
    && left == if |plan| <= had then had - |plan| else 0
  }

  /** The control block and the cache partition, while there is power. */
  class Disk {
    var state: State
    var power: nat

    constructor (state: State, power: nat)
      ensures this.state == state && this.power == power
    {
      this.state, this.power := state, power;
    }

    method Do(c: Change)
      modifies this
      ensures Ran(old(state), old(power), [c])
    {
      assert [c][..0] == [] && [c][..1] == [c];
      ApplyOne(state, c);
      if power > 0 {
        state, power := Next(state, c), power - 1;
      }
    }

    ghost predicate Ran(before: State, had: nat, plan: seq<Change>)
      reads this
    {
      CameTo(before, had, plan, state, power)
    }
  }

  lemma ApplyAppend(s: State, a: seq<Change>, b: seq<Change>)
    ensures Apply(s, a + b) == Apply(Apply(s, a), b)
  {
    FoldAppend(Next, s, a, b);
  }

  lemma ApplyOne(s: State, c: Change)
    ensures Apply(s, [c]) == Next(s, c) && Apply(s, []) == s
  {
    assert [c][..0] == [];
    assert Fold(Next, s, []) == s;
  }

  /** Running one plan after the other. */
  lemma CutAppend(s: State, a: seq<Change>, b: seq<Change>, power: nat)
    ensures Apply(s, Cut(a + b, power)) ==
      Apply(Apply(s, Cut(a, power)), Cut(b, if |a| <= power then power - |a| else 0))
  {
    if power < |a| {
      assert (a + b)[..power] == a[..power];
      assert Cut(b, 0) == [];
    } else if power < |a + b| {
      assert (a + b)[..power] == a + b[..power - |a|];
      ApplyAppend(s, a, b[..power - |a|]);
    } else {
      ApplyAppend(s, a, b);
    }
  }

  // ---------------------------------------------------------------- plans

  /** The arguments that get_args finds. A control block that cannot be read is all zeroes. */
  function Found(s: State, e: Events): seq<string> {
    var file := if s.cache.Filesystem? && e.fileRead then s.cache.commandFile else None;
    Chosen(if e.blockRead then s.recovery else "", [PROGRAM], e.ignored, file)[1..]
  }

  /** The message that makes a boot wipe the cache and pass the intent on. */
  function WipeMessage(intent: Option<string>): Field {
    var base := Take(PROGRAM + "\n" + WIPE_CACHE + "\n", 31);
    if intent.None? then base
    else StrLCat(StrLCat(StrLCat(base, SEND_INTENT), intent.value), "\n")
  }

  function FormatPlan(format: Formatting): seq<Change> {
    match format
    case Untouched => []
    case Broken => [Destroy]
    case Done => [Destroy, MakeFilesystem]
  }

  function SetPlan(works: bool, command: string, recovery: Field): seq<Change> {
    if works then [SetMessage(command, recovery)] else []
  }

  function FinishPlan(finish: Finish): seq<Change> {
    SetPlan(finish.cleared, "", "") + if finish.removed then [RemoveCommandFile] else []
  }

  function Installable(image: Option<Image>): Option<Firmware> {
    if image.None? || image.value.length == 0 then None else Some(image.value.firmware)
  }

  function Pending(images: seq<Image>): Option<Firmware> {
    Installable(if images == [] then None else Some(images[0]))
  }

  function ImagePlan(image: Outcome): seq<Change> {
    match image
    case NotStarted => []
    case Partial | Misreported => [Destroy]
    case Whole => [Destroy, FinishImage]
  }

  /** Changes of maybe_install_firmware_update, and whether it reboots. */
  function FirmwarePlan(firmware: Option<Firmware>, intent: Option<string>, e: Events): (seq<Change>, bool) {
    if firmware.None? || !e.armed then ([], false)
    else
      var message := WipeMessage(intent);
      var arm := [SetMessage(BOOT_RECOVERY, message)] + ImagePlan(e.image);
      if !Reported(e.image) || !e.instructed then (arm + FormatPlan(e.format), false)
      else (arm + [SetMessage(UpdateCommand(firmware.value), message)], !e.rebootReturns)
  }

  /** The work asked for, and whether it succeeded. */
  function WorkPlan(o: Options, e: Events): (seq<Change>, bool) {
    if o.package.Some? then ([], e.installed && |e.images| <= 1)
    else if o.wipeData || o.wipeCache then
      (if o.wipeCache then FormatPlan(e.format) else [], (o.wipeData ==> e.dataWiped) && (o.wipeCache ==> e.formatTold))
    else ([], false)
  }

  function RecoveryPlan(s: State, e: Events): seq<Change> {
    var o := Parse(Found(s, e));
    var (work, ok) := WorkPlan(o, e);
    var (install, rebooted) := FirmwarePlan(if o.package.Some? then Pending(e.images) else None, o.intent, e);
    SetPlan(e.saved, BOOT_RECOVERY, Pack(Found(s, e))) + work + (if !ok || e.textVisible then FinishPlan(e.atPrompt) else [])
      + install + (if rebooted then [] else FinishPlan(e.atEnd))
  }

  function BootPlan(s: State, e: Events): seq<Change> {
    if e.forced || s.command == BOOT_RECOVERY then RecoveryPlan(s, e)
    else if IsUpdate(s.command) then [SetMessage(BOOT_RECOVERY, s.recovery)]
    else if e.request.Some? then [WriteCommandFile(e.request.value)]
    else []
  }

  function Boot(s: State, e: Events): State { Apply(s, Cut(BootPlan(s, e), e.power)) }

  function Boots(s: State, es: seq<Events>): State {
    if es == [] then s else Boot(Boots(s, es[..|es|-1]), es[|es|-1])
  }

  // ---------------------------------------------------------------- the programs

  lemma Joined(before: State, had: nat, a: seq<Change>, mid: State, left: nat, b: seq<Change>, after: State, rest: nat)
    requires CameTo(before, had, a, mid, left) && CameTo(mid, left, b, after, rest)
    ensures CameTo(before, had, a + b, after, rest)
  {
    CutAppend(before, a, b, had);
  }

  method SetBootMessage(disk: Disk, works: bool, command: string, recovery: Field) returns (r: int)
    modifies disk
    ensures disk.Ran(old(disk.state), old(disk.power), SetPlan(works, command, recovery))
    ensures r == if works then 0 else -1
  {
    r := -1;
    if works {
      disk.Do(SetMessage(command, recovery));
      r := 0;
    }
  }

  method FormatCache(disk: Disk, e: Events) returns (r: int)
    modifies disk
    ensures disk.Ran(old(disk.state), old(disk.power), FormatPlan(e.format))
    ensures r == if e.formatTold then 0 else -1
  {
    r := if e.formatTold then 0 else -1;
    if e.format.Untouched? {
      return;
    }
    disk.Do(Destroy);
    if e.format.Done? {
      ghost var mid, left := disk.state, disk.power;
      disk.Do(MakeFilesystem);
      Joined(old(disk.state), old(disk.power), [Destroy], mid, left, [MakeFilesystem], disk.state, disk.power);
      assert FormatPlan(e.format) == [Destroy] + [MakeFilesystem];
    }
  }

  /** finish_recovery */
  method FinishRecovery(disk: Disk, finish: Finish)
    modifies disk
    ensures disk.Ran(old(disk.state), old(disk.power), FinishPlan(finish))
  {
    var _ := SetBootMessage(disk, finish.cleared, "", "");
    if finish.removed {
      ghost var mid, left := disk.state, disk.power;
      disk.Do(RemoveCommandFile);
      Joined(old(disk.state), old(disk.power), SetPlan(finish.cleared, "", ""), mid, left, [RemoveCommandFile], disk.state, disk.power);
    } else {
      assert FinishPlan(finish) == SetPlan(finish.cleared, "", "");
    }
  }

  /** install_package, as far as firmware is concerned. */
  method InstallPackage(update: FirmwareUpdate, e: Events) returns (ok: bool)
    requires update.pending == None
    modifies update
    ensures ok <==> e.installed && |e.images| <= 1
    ensures update.pending == if e.images == [] then None else Some(e.images[0])
  {
    var i := 0;
    while i < |e.images|
      invariant 0 <= i <= |e.images| && i <= 1
      invariant update.pending == if i == 0 then None else Some(e.images[0])
    {
      var r := update.Remember(e.images[i]);
      if r != 0 {
        return false;
      }
      i := i + 1;
    }
    ok := e.installed;
  }

  /** write_update_for_bootloader, as far as it gets. */
  method WriteImage(disk: Disk, e: Events) returns (r: int)
    modifies disk
    ensures disk.Ran(old(disk.state), old(disk.power), ImagePlan(e.image))
    ensures r == if Reported(e.image) then 0 else -1
  {
    r := if Reported(e.image) then 0 else -1;
    if e.image.NotStarted? {
      return;
    }
    disk.Do(Destroy);
    if e.image.Whole? {
      ghost var mid, left := disk.state, disk.power;
      disk.Do(FinishImage);
      Joined(old(disk.state), old(disk.power), [Destroy], mid, left, [FinishImage], disk.state, disk.power);
      assert ImagePlan(e.image) == [Destroy] + [FinishImage];
    }
  }

  /** maybe_install_firmware_update */
  method MaybeInstall(disk: Disk, update: FirmwareUpdate, intent: Option<string>, e: Events) returns (rebooted: bool)
    modifies disk
    ensures var (plan, end) := FirmwarePlan(Installable(update.pending), intent, e);
      disk.Ran(old(disk.state), old(disk.power), plan) && rebooted == end
  {
    rebooted := false;
    if update.pending.None? || update.pending.value.length == 0 {
      return;
    }
    var message := WipeMessage(intent);
    var armed := SetBootMessage(disk, e.armed, BOOT_RECOVERY, message);
    if armed != 0 {
      return;
    }
    ghost var arm := [SetMessage(BOOT_RECOVERY, message)];
    ghost var s1, p1 := disk.state, disk.power;
    var written := WriteImage(disk, e);
    ghost var s2, p2 := disk.state, disk.power;
    ghost var before, had := old(disk.state), old(disk.power);
    ghost var image := arm + ImagePlan(e.image);
    Joined(before, had, arm, s1, p1, ImagePlan(e.image), disk.state, disk.power);
    if written != 0 {
      var _ := FormatCache(disk, e);
      Joined(before, had, image, s2, p2, FormatPlan(e.format), disk.state, disk.power);
      return;
    }
    var command := UpdateCommand(update.pending.value.firmware);
    var instructed := SetBootMessage(disk, e.instructed, command, message);
    if instructed != 0 {
      var _ := FormatCache(disk, e);
      Joined(before, had, image, s2, p2, FormatPlan(e.format), disk.state, disk.power);
      return;
    }
    Joined(before, had, image, s2, p2, [SetMessage(command, message)], disk.state, disk.power);
    rebooted := !e.rebootReturns;
  }

  /** getopt_long, for complete option names with their values after "=". */
  method ReadOptions(args: seq<string>) returns (o: Options)
    ensures o == Parse(args)
  {
    o := Options(None, None, false, false);
    for i := 0 to |args|
      invariant o == Parse(args[..i])
    {
      assert args[..i + 1][..i] == args[..i];
      o := WithOption(o, args[i]);
    }
    assert args[..|args|] == args;
  }

  /** The wipe or the installation that the arguments ask for. */
  method DoWork(disk: Disk, update: FirmwareUpdate, o: Options, e: Events) returns (ok: bool)
    requires update.pending == None
    modifies disk, update
    ensures var (plan, success) := WorkPlan(o, e);
      disk.Ran(old(disk.state), old(disk.power), plan) && ok == success
    ensures Installable(update.pending) == if o.package.Some? then Pending(e.images) else None
  {
    ok := true;
    if o.package.Some? {
      ok := InstallPackage(update, e);
    } else if o.wipeData || o.wipeCache {
      if o.wipeData && !e.dataWiped {
        ok := false;
      }
      if o.wipeCache {
        var r := FormatCache(disk, e);
        if r != 0 { ok := false; }
      }
    } else {
      ok := false;
    }
  }

  /** get_args, with the files and the control block it works on. */
  method FindArgs(disk: Disk, e: Events) returns (args: seq<string>)
    modifies disk
    ensures args == Found(old(disk.state), e)
    ensures disk.Ran(old(disk.state), old(disk.power), SetPlan(e.saved, BOOT_RECOVERY, Pack(args)))
  {
    var boot := new BootMessage("", "");
    if e.blockRead {
      boot := new BootMessage(disk.state.command, disk.state.recovery);
    }
    var file := if disk.state.cache.Filesystem? && e.fileRead then disk.state.cache.commandFile else None;
    var argv := boot.GetArgs([PROGRAM], e.ignored, file);
    args := argv[1..];
    var _ := SetBootMessage(disk, e.saved, boot.command, boot.recovery);
  }

  /** main */
  method RecoveryMain(disk: Disk, e: Events)
    modifies disk
    ensures disk.Ran(old(disk.state), old(disk.power), RecoveryPlan(old(disk.state), e))
  {
    hide FinishPlan, FirmwarePlan, WorkPlan, SetPlan, CameTo, Found, Pack, Parse;
    ghost var before, had := disk.state, disk.power;
    var args := FindArgs(disk, e);
    ghost var done := SetPlan(e.saved, BOOT_RECOVERY, Pack(args));
    var o := ReadOptions(args);
    var update := new FirmwareUpdate();
    ghost var s, p := disk.state, disk.power;
    var ok := DoWork(disk, update, o, e);
    Joined(before, had, done, s, p, WorkPlan(o, e).0, disk.state, disk.power);
    done := done + WorkPlan(o, e).0;
    if !ok || e.textVisible {
      s, p := disk.state, disk.power;
      FinishRecovery(disk, e.atPrompt);  // prompt_and_wait
      Joined(before, had, done, s, p, FinishPlan(e.atPrompt), disk.state, disk.power);
      done := done + FinishPlan(e.atPrompt);
    } else {
      assert done + [] == done;
    }
    s, p := disk.state, disk.power;
    var rebooted := MaybeInstall(disk, update, o.intent, e);
    ghost var install := FirmwarePlan(Installable(update.pending), o.intent, e).0;
    Joined(before, had, done, s, p, install, disk.state, disk.power);
    done := done + install;
    if !rebooted {
      s, p := disk.state, disk.power;
      FinishRecovery(disk, e.atEnd);
      Joined(before, had, done, s, p, FinishPlan(e.atEnd), disk.state, disk.power);
    } else {
      assert done + [] == done;
    }
  }

  /** One boot: the bootloader reads the command and installs an update itself, or starts
      recovery or the main system. */
  method BootOnce(disk: Disk, e: Events)
    modifies disk
    ensures disk.Ran(old(disk.state), old(disk.power), BootPlan(old(disk.state), e))
  {
    if e.forced || disk.state.command == BOOT_RECOVERY {
      RecoveryMain(disk, e);
    } else if IsUpdate(disk.state.command) {
      disk.Do(SetMessage(BOOT_RECOVERY, disk.state.recovery));
    } else if e.request.Some? {
      disk.Do(WriteCommandFile(e.request.value));
    }
  }
}
