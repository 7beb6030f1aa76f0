/** That the restart protocol ends, and what goes wrong when one of its conditions fails. */
module RestartProgress {
  import opened Wrappers  // Option
  import opened BcbArgs
  import opened RestartProtocol
  import opened RestartSafety
  import opened RestartWipes

  // ---------------------------------------------------------------- progress

  /** Boots still needed, at most, until the main system can run with a clean cache. */
  function Remaining(s: State): nat {
    if IsUpdate(s.command) then 2
    else if s.command != BOOT_RECOVERY then 0
    else if s.cache.Filesystem? then 3
    else 1
  }

  predicate Uninterrupted(s: State, e: Events) {
    Allowed(s, e) && !e.forced && e.atEnd.cleared && |BootPlan(s, e)| <= e.power
  }

  lemma BootMakesProgress(s: State, e: Events)
    requires Safe(s) && Uninterrupted(s, e)
    ensures Safe(Boot(s, e))
    ensures Remaining(Boot(s, e)) < Remaining(s) || Remaining(s) == Remaining(Boot(s, e)) == 0
    ensures if s.command == BOOT_RECOVERY || IsUpdate(s.command)
      then Remaining(Boot(s, e)) == 0 ==> Boot(s, e).command == ""
      else Boot(s, e).command == s.command
  {
    NoUpdates();
    BootIsSafe(s, e);
    if s.command == BOOT_RECOVERY {
      RecoveryIsSafe(s, e);
      if Parse(Found(s, e)).package.Some? { PackageNeedsCache(s, e); }
    } else if IsUpdate(s.command) {
      SafeOne(s, SetMessage(BOOT_RECOVERY, s.recovery));
    } else if e.request.Some? {
      SafeOne(s, WriteCommandFile(e.request.value));
    } else {
      SafeNothing(s);
    }
  }

  lemma {:induction false} BootsMakeProgress(s: State, es: seq<Events>)
    requires Safe(s) && Throughout(Uninterrupted, s, es)
    ensures var r := Boots(s, es);
      && Safe(r) && (Remaining(r) + |es| <= Remaining(s) || Remaining(r) == 0)
      && if s.command == BOOT_RECOVERY || IsUpdate(s.command)
         then Remaining(r) == 0 ==> r.command == ""
         else r.command == s.command
  {
    NoUpdates();
    if es != [] {
      hide Boot, Uninterrupted, Safe, Throughout;
      var front, last := es[..|es|-1], es[|es|-1];
      LastBoot(Uninterrupted, s, es);
      BootsMakeProgress(s, front);
      BootMakesProgress(Boots(s, front), last);
    }
  }

  /** From every state that any interrupted series of boots can leave, three boots in a row
      that are not interrupted lead to a cache with a file system and a control block
      without a command for recovery or the bootloader, and it stays so; a control block
      that had one is cleared, and a wipe that was on record and is kept has been carried
      out by then. */
  lemma ThreeBootsFinish(s: State, es: seq<Events>)
    requires Safe(s) && |es| >= 3 && Throughout(Uninterrupted, s, es)
    ensures var r := Boots(s, es);
      && r.cache.Filesystem? && r.command != BOOT_RECOVERY && !IsUpdate(r.command)
      && r.command == (if s.command == BOOT_RECOVERY || IsUpdate(s.command) then "" else s.command)
      && (Due(s) && AllKeep(s, es) ==> r.formatted > s.formatted)
  {
    BootsMakeProgress(s, es);
    if Due(s) { NoWipeIsLost(s, es); }
  }

  // ---------------------------------------------------------------- the flows of the documentation

  /** A series of changes, one at a time. */
  function States(s: State, plan: seq<Change>): State
    decreases |plan|
  {
    if plan == [] then s else States(Next(s, plan[0]), plan[1..])
  }

  lemma {:induction false} AppliedInOrder(s: State, plan: seq<Change>)
    ensures Apply(s, plan) == States(s, plan)
    decreases |plan|
  {
    if plan == [] {
      ApplyOne(s, RemoveCommandFile);
    } else {
      assert plan == [plan[0]] + plan[1..];
      ApplyAppend(s, [plan[0]], plan[1..]);
      ApplyOne(s, plan[0]);
      AppliedInOrder(Next(s, plan[0]), plan[1..]);
    }
  }

  lemma FiveStates(s: State, c1: Change, c2: Change, c3: Change, c4: Change, c5: Change)
    ensures States(s, [c1, c2, c3, c4, c5]) == Next(Next(Next(Next(Next(s, c1), c2), c3), c4), c5)
  {
    hide States, Next;
    OneState(s, c1, [c2, c3, c4, c5]);
    OneState(Next(s, c1), c2, [c3, c4, c5]);
    var s2 := Next(Next(s, c1), c2);
    OneState(s2, c3, [c4, c5]);
    OneState(Next(s2, c3), c4, [c5]);
    OneState(Next(Next(s2, c3), c4), c5, []);
    assert [c1] + [c2, c3, c4, c5] == [c1, c2, c3, c4, c5] && [c2] + [c3, c4, c5] == [c2, c3, c4, c5];
    assert [c3] + [c4, c5] == [c3, c4, c5] && [c4] + [c5] == [c4, c5] && [c5] + [] == [c5];
  }

  lemma OneState(s: State, c: Change, rest: seq<Change>)
    ensures States(s, [c] + rest) == States(Next(s, c), rest) && States(s, []) == s
    ensures States(Next(s, c), []) == Next(s, c)
  {
    assert ([c] + rest)[1..] == rest;
  }

  /** The boot that wipes the cache and clears the control block. */
  lemma WipingBoot(s: State, e: Events)
    requires StartsRecovery(s, e) && Wipes(Found(s, e)) && (Parse(Found(s, e)).wipeData ==> e.dataWiped)
    requires e == FINE || e == FINE.(forced := false)
    ensures Boot(s, e) == State("", "", Filesystem(None), s.formatted + 1)
  {
    var args := Found(s, e);
    var save := SetMessage(BOOT_RECOVERY, Pack(args));
    hide Found, Parse, Pack;
    assert BootPlan(s, e) == [save, Destroy, MakeFilesystem, SetMessage("", ""), RemoveCommandFile];
    AppliedInOrder(s, BootPlan(s, e));
    hide BootPlan;
    FiveStates(s, save, Destroy, MakeFilesystem, SetMessage("", ""), RemoveCommandFile);
  }

  /** A factory reset: one boot formats the cache and clears the control block. */
  lemma FactoryReset()
    ensures IsLine("--wipe_data")
    ensures Boot(Asking(["--wipe_data"]), FINE) == State("", "", Filesystem(None), 1)
  {
    var args: seq<Line> := ["--wipe_data"];
    Asked(args, FINE);
    OptionMeans([], "");
    assert [] + ["--wipe_data"] == ["--wipe_data"];
    hide Parse, Found, Boot;
    WipingBoot(Asking(args), FINE);
  }

  lemma ThreeStates(s: State, c1: Change, c2: Change, c3: Change)
    ensures States(s, [c1, c2, c3]) == Next(Next(Next(s, c1), c2), c3)
  {
    hide States, Next;
    OneState(s, c1, [c2, c3]);
    OneState(Next(s, c1), c2, [c3]);
    OneState(Next(Next(s, c1), c2), c3, []);
    assert [c1] + [c2, c3] == [c1, c2, c3] && [c2] + [c3] == [c2, c3] && [c3] + [] == [c3];
  }

  /** A package without firmware: it is installed, nothing is wiped even if that was asked for
      as well, and the control block is cleared. */
  lemma PackageFlow(s: State, e: Events)
    requires StartsRecovery(s, e) && s.cache.Filesystem? && Parse(Found(s, e)).package.Some?
    requires e == FINE.(images := []) || e == FINE.(images := [], forced := false)
    ensures Boot(s, e) == State("", "", Filesystem(None), s.formatted)
  {
    var save := SetMessage(BOOT_RECOVERY, Pack(Found(s, e)));
    hide Found, Parse, Pack;
    assert BootPlan(s, e) == [save, SetMessage("", ""), RemoveCommandFile];
    AppliedInOrder(s, BootPlan(s, e));
    hide BootPlan;
    ThreeStates(s, save, SetMessage("", ""), RemoveCommandFile);
  }

  /** The boot that sends the bootloader to the image. */
  lemma InstallingBoot(s: State, e: Events, f: Firmware)
    requires e == FINE.(images := [Image(f, 1)])
    requires Parse(Found(s, e)).package.Some? && Parse(Found(s, e)).intent.None?
    ensures Boot(s, e) == State("update-" + f, WipeMessage(None), CompleteImage, s.formatted)
  {
    var args, message := Found(s, e), WipeMessage(None);
    var save, arm := SetMessage(BOOT_RECOVERY, Pack(args)), SetMessage(BOOT_RECOVERY, message);
    var instruct := SetMessage("update-" + f, message);
    hide Found, Parse, Pack, WipeMessage;
    assert BootPlan(s, e) == [save, arm, Destroy, FinishImage, instruct];
    AppliedInOrder(s, BootPlan(s, e));
    hide BootPlan;
    FiveStates(s, save, arm, Destroy, FinishImage, instruct);
  }

  /** An update with firmware: recovery leaves the update command of this firmware, the message
      that wipes the cache, and the image; the bootloader starts recovery again with that
      message; recovery wipes the cache and clears the control block. */
  lemma UpdateFlow(f: Firmware, package: string)
    requires IsLine("--update_package=" + package)
    ensures var wipe := "recovery\n--wipe_cache\n";
      var s1 := Boot(Asking(["--update_package=" + package]), FINE.(images := [Image(f, 1)]));
      var s2 := Boot(s1, FINE.(forced := false));
      && s1 == State("update-" + f, wipe, CompleteImage, 0)
      && s2 == State("boot-recovery", wipe, CompleteImage, 0)
      && Boot(s2, FINE.(forced := false)) == State("", "", Filesystem(None), 1)
  {
    var args: seq<Line> := ["--update_package=" + package];
    var e, fine := FINE.(images := [Image(f, 1)]), FINE.(forced := false);
    Asked(args, e);
    OptionMeans([], package);
    assert [] + ["--update_package=" + package] == ["--update_package=" + package];
    WipeMessageText("");
    InstallingBoot(Asking(args), e, f);
    var s1 := State("update-" + f, WipeMessage(None), CompleteImage, 0);
    BackFromBootloader(s1, f);
    var s2 := s1.(command := BOOT_RECOVERY);
    WipeAsked();
    WipeIsFound(s2, fine);
    OnlyCache(s2, fine);
    WipingBoot(s2, fine);
  }

  lemma BackFromBootloader(s: State, f: Firmware)
    requires s.command == "update-" + f
    ensures Boot(s, FINE.(forced := false)) == s.(command := BOOT_RECOVERY)
  {
    var fine := FINE.(forced := false);
    CommandsDiffer(f);
    assert s.command != BOOT_RECOVERY;
    assert BootPlan(s, fine) == [SetMessage(BOOT_RECOVERY, s.recovery)];
    ApplyOne(s, SetMessage(BOOT_RECOVERY, s.recovery));
  }

  lemma OnlyCache(s: State, e: Events)
    requires s.recovery == WipeMessage(None) && e.blockRead && !e.ignored
    ensures !Parse(Found(s, e)).wipeData
  {
    PlainMessage();
    TokensOfLines([PROGRAM, WIPE_CACHE]);
    assert [PROGRAM, WIPE_CACHE][1..] == [WIPE_CACHE];
    assert ([PROGRAM] + [WIPE_CACHE])[1..] == [WIPE_CACHE] && [WIPE_CACHE][..0] == [];
    assert Found(s, e) == [WIPE_CACHE];
  }

  /** A boot of the main system leaves its request in the command file, if the cache holds a
      file system, and nothing else. */
  lemma MainSystemAsks(s: State, e: Events)
    requires !StartsRecovery(s, e) && !IsUpdate(s.command) && e.power > 0
    ensures Boot(s, e) == if e.request.Some? && s.cache.Filesystem? then s.(cache := Filesystem(e.request)) else s
  {
    if e.request.Some? {
      ApplyOne(s, WriteCommandFile(e.request.value));
    } else {
      ApplyOne(s, RemoveCommandFile);
    }
  }

  // ---------------------------------------------------------------- what goes wrong otherwise

  /** The main system asks for something. */
  function Asking(args: seq<Line>): State { State("", "", Filesystem(Some(args)), 0) }

  const WIPE_ASKED: State := Asking([WIPE_CACHE])
  const UPDATE_ASKED: State := Asking([UPDATE_PACKAGE])

  /** A firmware update was interrupted before its image was complete. */
  function Interrupted(cache: Cache): State { State(BOOT_RECOVERY, WipeMessage(None), cache, 0) }

  const CLEARED: Finish := Finish(true, true)
  const UNCLEARED: Finish := Finish(false, true)

  /** Recovery started by key, with everything going well. */
  const FINE: Events := Events(100, true, None, true, false, true, true, [Image("radio", 1)], true, true, false,
    true, Whole, true, false, Done, true, CLEARED, CLEARED)

  const NOT_FORMATTED: Events := FINE.(format := Broken, formatTold := false)

  lemma Asked(args: seq<Line>, e: Events)
    requires e.fileRead && |args| < MAX_ARGS
    ensures Safe(Asking(args)) && Found(Asking(args), e) == args
  {
    NoUpdates();
    assert ([PROGRAM] + args)[1..] == args;
    assert Tokens("") == [];
  }

  lemma WipeAsked()
    ensures Wipes([WIPE_CACHE]) && WipeOn(Pack([WIPE_CACHE])) && WipeOn(WipeMessage(None))
  {
    WipeOptions(SEND_INTENT);
    PlainMessage();
    WipeMessageWipes(None);
    var text := Lines([PROGRAM, WIPE_CACHE]);
    assert [PROGRAM] + [WIPE_CACHE] == [PROGRAM, WIPE_CACHE];
    assert |text| < FIELD_SIZE by { assert |WipeMessage(None)| < FIELD_SIZE; }
    assert Pack([WIPE_CACHE]) == text;
  }

  /** What a wipe that the main system asks for depends on. */
  lemma AskedToWipe(e: Events)
    requires e.forced && e.fileRead
    ensures var s := WIPE_ASKED;
      AllSafe(s, BootPlan(s, e)) <==>
        && (e.saved || e.format.Untouched?)
        && (e.format.Broken? ==> (!e.formatTold || e.textVisible ==> !e.atPrompt.cleared) && !e.atEnd.cleared)
  {
    var s := WIPE_ASKED;
    WipeAsked();
    NoUpdates();
    Asked([WIPE_CACHE], e);
    assert !Parse([WIPE_CACHE]).wipeData by { assert [WIPE_CACHE][..0] == []; }
    hide Safe, AllSafe, BootPlan, Found, WipeOn, Pack, IsUpdate, Parse;
    BootIsSafe(s, e);
  }

  /** What an update that it asks for depends on. */
  lemma AskedToUpdate(e: Events)
    requires e.forced && e.fileRead && e.armed && e.images == [Image("radio", 1)]
    ensures var s := UPDATE_ASKED; AllSafe(s, BootPlan(s, e)) <==> InstallAllowed(e)
  {
    var s := UPDATE_ASKED;
    UpdateOption();
    NoUpdates();
    Asked([UPDATE_PACKAGE], e);
    hide Safe, AllSafe, BootPlan, Found, WipeOn, Pack, IsUpdate, Parse;
    BootIsSafe(s, e);
  }

  /** Concrete boots that are unsafe with all else going well: the wipe could not be saved;
      formatting failed and the control block was cleared, at the prompt or in the end; the
      reboot returned; the image was misreported; or it failed, and formatting too. Each is
      safe without the clearing. */
  lemma EachMishapIsFatal()
    ensures var s := WIPE_ASKED;
      && AllSafe(s, BootPlan(s, FINE))
      && !AllSafe(s, BootPlan(s, FINE.(saved := false)))
      && !AllSafe(s, BootPlan(s, NOT_FORMATTED.(atPrompt := UNCLEARED)))
      && !AllSafe(s, BootPlan(s, NOT_FORMATTED.(atEnd := UNCLEARED)))
      && AllSafe(s, BootPlan(s, NOT_FORMATTED.(atPrompt := UNCLEARED, atEnd := UNCLEARED)))
    ensures var s := UPDATE_ASKED;
      && AllSafe(s, BootPlan(s, FINE))
      && !AllSafe(s, BootPlan(s, FINE.(rebootReturns := true)))
      && AllSafe(s, BootPlan(s, FINE.(rebootReturns := true, atEnd := UNCLEARED)))
      && !AllSafe(s, BootPlan(s, FINE.(image := Misreported)))
      && !AllSafe(s, BootPlan(s, NOT_FORMATTED.(image := Partial)))
      && AllSafe(s, BootPlan(s, NOT_FORMATTED.(image := Partial, atEnd := UNCLEARED)))
  {
    hide AllSafe, BootPlan;
    AskedToWipe(FINE);
    AskedToWipe(FINE.(saved := false));
    AskedToWipe(NOT_FORMATTED.(atPrompt := UNCLEARED));
    AskedToWipe(NOT_FORMATTED.(atEnd := UNCLEARED));
    AskedToWipe(NOT_FORMATTED.(atPrompt := UNCLEARED, atEnd := UNCLEARED));
    AskedToUpdate(FINE);
    AskedToUpdate(FINE.(rebootReturns := true));
    AskedToUpdate(FINE.(rebootReturns := true, atEnd := UNCLEARED));
    AskedToUpdate(FINE.(image := Misreported));
    AskedToUpdate(NOT_FORMATTED.(image := Partial));
    AskedToUpdate(NOT_FORMATTED.(image := Partial, atEnd := UNCLEARED));
  }

  lemma UpdateOption()
    ensures Parse([UPDATE_PACKAGE]).package.Some?
  {
    assert [UPDATE_PACKAGE][..0] == [];
    assert !(SEND_INTENT <= UPDATE_PACKAGE) by { assert SEND_INTENT[2] != UPDATE_PACKAGE[2]; }
  }

  /** An intent of a thousand characters leaves no room in the field for an option after it. */
  lemma LongIntentFillsField(intent: string)
    requires '\n' !in intent && |intent| >= 1000
    ensures !WipeOn(Pack([SEND_INTENT + intent, WIPE_CACHE]))
  {
    var args := [SEND_INTENT + intent, WIPE_CACHE];
    var v := SEND_INTENT + intent[..1000];
    var rest := "\n" + Lines([WIPE_CACHE]);
    assert Lines([PROGRAM] + args) == PROGRAM + "\n" + Lines(args) by {
      assert ([PROGRAM] + args)[1..] == args;
    }
    assert Lines(args) == SEND_INTENT + intent + rest by {
      assert args[1..] == [WIPE_CACHE];
    }
    assert Pack(args) == PROGRAM + ("\n" + v) == PROGRAM + "\n" + v;
    assert IsLine(v) by { assert v[0] == '-'; }
    hide Tokens, Lines;
    NextLine(PROGRAM, v);
    FirstToken(v, "");
    NoTokens();
    assert v + "" == v && Tokens(Pack(args)) == [PROGRAM, v];
    assert [PROGRAM, v][1..] == [v];
    IntentAlone(v);
  }

  lemma IntentAlone(v: string)
    requires SEND_INTENT <= v
    ensures Parse([v]) == Options(Some(v[|SEND_INTENT|..]), None, false, false)
  {
    assert [v][..0] == [];
  }

  /** A wipe behind such an intent in the command file is not put on record. */
  lemma LongFileIsFatal(intent: string)
    requires '\n' !in intent && |intent| >= 1000
    ensures IsLine(SEND_INTENT + intent)
    ensures var s := Asking([SEND_INTENT + intent, WIPE_CACHE]); !AllSafe(s, BootPlan(s, FINE))
  {
    var v := SEND_INTENT + intent;
    assert v[0] == '-';
    assert [v, WIPE_CACHE][..1] == [v];
    WipeOptions(v);
    IntentThenWipe(v);
    Asked([v, WIPE_CACHE], FINE);
    LongIntentFillsField(intent);
    hide Safe, AllSafe, BootPlan, Found, WipeOn, Pack, IsUpdate, Wipes;
    BootIsSafe(Asking([v, WIPE_CACHE]), FINE);
  }

  lemma IntentThenWipe(v: string)
    requires SEND_INTENT <= v
    ensures Wipes([v, WIPE_CACHE])
  {
    IntentAlone(v);
    assert [v, WIPE_CACHE][..1] == [v];
    assert !(SEND_INTENT <= WIPE_CACHE) by { assert SEND_INTENT[2] != WIPE_CACHE[2]; }
    assert !(UPDATE_PACKAGE <= WIPE_CACHE) by { assert UPDATE_PACKAGE[2] != WIPE_CACHE[2]; }
  }

  /** In the middle of a firmware update it is fatal not to read the control block, or to
      ignore it, once. */
  lemma UnreadBlockIsFatal(e: Events)
    requires e == FINE.(blockRead := false) || e == FINE.(ignored := true)
    ensures var s := Interrupted(Destroyed);
      Safe(s) && AllSafe(s, BootPlan(s, FINE)) && !AllSafe(s, BootPlan(s, e))
  {
    var s := Interrupted(Destroyed);
    NoUpdates();
    NothingFound(s, e);
    hide AllSafe, BootPlan, Found, WipeOn, Pack, WipeMessage, Wipes, Prompted, Remembered, CacheReady, OnRecord, IsUpdate;
    WipeAsked();
    FineAfterInterruption(Destroyed);
    BootIsSafe(s, e);
  }

  lemma FineAfterInterruption(cache: Cache)
    requires !cache.CompleteImage?
    ensures var s := Interrupted(cache); AllSafe(s, BootPlan(s, FINE)) && AllKept(0, s, BootPlan(s, FINE))
  {
    var s := Interrupted(cache);
    WipeAsked();
    NoUpdates();
    WipeFound(s);
    hide AllSafe, AllKept, BootPlan, Found, WipeOn, Pack, IsUpdate, WipeMessage, Wipes, Prompted, Remembered;
    BootIsSafe(s, FINE);
    BootKeepsWipe(s, FINE);
  }

  lemma WipeFound(s: State)
    requires WipeOn(s.recovery)
    ensures Wipes(Found(s, FINE)) && WipeOn(Pack(Found(s, FINE))) && Remembered(s, FINE).None?
  {
    WipeIsFound(s, FINE);
  }

  /** With a file system in the cache it is safe, but the wipe is lost. */
  lemma UnreadBlockLosesWipe(e: Events)
    requires e == FINE.(blockRead := false) || e == FINE.(ignored := true)
    ensures var s := Interrupted(Filesystem(None));
      && Due(s) && AllKept(0, s, BootPlan(s, FINE))
      && AllSafe(s, BootPlan(s, e)) && !AllKept(0, s, BootPlan(s, e))
  {
    var s := Interrupted(Filesystem(None));
    WipeAsked();
    NoUpdates();
    NothingFound(s, e);
    hide AllKept, AllSafe, BootPlan, Found, WipeOn, Pack, IsUpdate, WipeMessage, Wipes, Prompted, Parse;
    FineAfterInterruption(Filesystem(None));
    BootIsSafe(s, e);
    BootKeepsWipe(s, e);
  }

  lemma NothingFound(s: State, e: Events)
    requires (!e.blockRead || e.ignored) && (s.cache.Filesystem? ==> s.cache.commandFile.None?)
    ensures Found(s, e) == [] && !WipeOn(Pack([])) && !Wipes([]) && Parse([]).package.None?
  {
    NoTokens();
    NothingPacked();
    hide Pack, WipeOn;
  }

  lemma NothingPacked()
    ensures !WipeOn(Pack([]))
  {
    assert [PROGRAM] + [] == [PROGRAM] && [PROGRAM][1..] == [];
    assert Lines([PROGRAM]) == PROGRAM + "\n" + "";
    assert IsLine(PROGRAM) && AllLines([PROGRAM]);
    assert Pack([]) == Lines([PROGRAM]);
    hide Lines, Pack, Tokens, IsLine;
    TokensOfLines([PROGRAM]);
  }
}
