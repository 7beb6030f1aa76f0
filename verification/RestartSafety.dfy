/** When the restart protocol is safe: an update command only with a complete image, and a
    destroyed cache only while recovery is still going to wipe it, at every point where a
    boot may be interrupted. */
module RestartSafety {
  import opened Wrappers  // Option
  import opened Series
  import opened BcbArgs
  import opened RestartProtocol

  /** A message that makes recovery wipe the cache. */
  predicate WipeOn(field: Field) { ArgsOf(field).Some? && Wipes(ArgsOf(field).value) }

  predicate Safe(s: State) {
    // an update command only with a complete image
    && (IsUpdate(s.command) ==> s.cache.CompleteImage?)
    // a destroyed file system only while recovery is still going to wipe the cache
    && (!s.cache.Filesystem? ==> (s.command == BOOT_RECOVERY || IsUpdate(s.command)) && WipeOn(s.recovery))
  }

  // ---------------------------------------------------------------- at every point

  /** What holds at every point where a series of changes may be interrupted. */
  ghost predicate Always(p: State -> bool, s: State, plan: seq<Change>) {
    forall n | 0 <= n <= |plan| :: p(Apply(s, plan[..n]))
  }

  lemma Prefixes(s: State, a: seq<Change>, b: seq<Change>, n: nat)
    requires n <= |a + b|
    ensures Apply(s, (a + b)[..n]) == if n <= |a| then Apply(s, a[..n]) else Apply(Apply(s, a), b[..n - |a|])
    ensures n == |a| ==> Apply(s, (a + b)[..n]) == Apply(Apply(s, a), b[..0])
  {
    if n <= |a| {
      assert (a + b)[..n] == a[..n];
      assert a[..|a|] == a && b[..0] == [];
    } else {
      assert (a + b)[..n] == a + b[..n - |a|];
      ApplyAppend(s, a, b[..n - |a|]);
    }
  }

  /** It holds throughout a series if and only if it does throughout its parts. */
  lemma AlwaysAppend(p: State -> bool, s: State, a: seq<Change>, b: seq<Change>)
    ensures Always(p, s, a + b) <==> Always(p, s, a) && Always(p, Apply(s, a), b)
    ensures Apply(s, a + b) == Apply(Apply(s, a), b)
  {
    ApplyAppend(s, a, b);
    hide Apply;
    if Always(p, s, a + b) {
      forall n | 0 <= n <= |a| ensures p(Apply(s, a[..n])) { Prefixes(s, a, b, n); }
      forall n | 0 <= n <= |b| ensures p(Apply(Apply(s, a), b[..n])) {
        Prefixes(s, a, b, |a| + n);
        assert p(Apply(s, (a + b)[..|a| + n]));
      }
    } else if Always(p, s, a) && Always(p, Apply(s, a), b) {
      forall n | 0 <= n <= |a + b| ensures p(Apply(s, (a + b)[..n])) { Prefixes(s, a, b, n); }
    }
  }

  lemma AlwaysNothing(p: State -> bool, s: State)
    ensures Always(p, s, []) <==> p(s)
    ensures Apply(s, []) == s
  {
    var none: seq<Change> := [];
    assert none[..0] == [];
  }

  lemma AlwaysOne(p: State -> bool, s: State, c: Change)
    ensures Always(p, s, [c]) <==> p(s) && p(Next(s, c))
    ensures Apply(s, [c]) == Next(s, c)
  {
    assert [c][..0] == [] && [c][..1] == [c];
    assert Apply(s, []) == s;
    assert Always(p, s, [c]) ==> p(Apply(s, [c][..0])) && p(Apply(s, [c][..1]));
  }

  /** What holds throughout holds in the end, and wherever the series is cut. */
  lemma AlwaysCut(p: State -> bool, s: State, plan: seq<Change>, power: nat)
    requires Always(p, s, plan)
    ensures p(Apply(s, plan)) && p(Apply(s, Cut(plan, power)))
  {
    assert plan[..|plan|] == plan;
  }

  ghost predicate AllSafe(s: State, plan: seq<Change>) { Always(Safe, s, plan) }

  lemma SafeAppend(s: State, a: seq<Change>, b: seq<Change>)
    ensures AllSafe(s, a + b) <==> AllSafe(s, a) && AllSafe(Apply(s, a), b)
    ensures Apply(s, a + b) == Apply(Apply(s, a), b)
  {
    AlwaysAppend(Safe, s, a, b);
  }

  lemma SafeNothing(s: State)
    ensures AllSafe(s, []) <==> Safe(s)
    ensures Apply(s, []) == s
  {
    AlwaysNothing(Safe, s);
  }

  lemma SafeOne(s: State, c: Change)
    ensures AllSafe(s, [c]) <==> Safe(s) && Safe(Next(s, c))
    ensures Apply(s, [c]) == Next(s, c)
  {
    AlwaysOne(Safe, s, c);
  }

  // ---------------------------------------------------------------- steps

  /** The cache holds a file system and no update is on its way. */
  predicate Quiet(s: State) { Safe(s) && s.cache.Filesystem? && !IsUpdate(s.command) }

  /** Recovery will run again and wipe the cache. */
  predicate Wiping(s: State) { Safe(s) && s.command == BOOT_RECOVERY && WipeOn(s.recovery) }

  lemma NoUpdates()
    ensures !IsUpdate(BOOT_RECOVERY) && !IsUpdate("") && BOOT_RECOVERY != ""
  {
  }

  lemma CommandsDiffer(f: Firmware)
    ensures !IsUpdate(BOOT_RECOVERY) && IsUpdate(UpdateCommand(f)) && !IsUpdate("") && BOOT_RECOVERY != ""
  {
    NoUpdates();
  }

  /** Formatting is safe if and only if recovery is going to wipe the cache anyway. */
  lemma FormatIsSafe(s: State, format: Formatting)
    requires Safe(s)
    ensures AllSafe(s, FormatPlan(format)) <==> format.Untouched? || Wiping(s)
    ensures var r := Apply(s, FormatPlan(format));
      && r.command == s.command && r.recovery == s.recovery
      && (r.cache.Filesystem? <==> if format.Untouched? then s.cache.Filesystem? else format.Done?)
      && (AllSafe(s, FormatPlan(format)) ==> Safe(r))
  {
    var destroyed := Next(s, Destroy);
    NoUpdates();
    SafeNothing(s);
    SafeOne(s, Destroy);
    if format.Done? {
      SafeOne(destroyed, MakeFilesystem);
      SafeAppend(s, [Destroy], [MakeFilesystem]);
      assert FormatPlan(format) == [Destroy] + [MakeFilesystem];
    }
  }

  /** Finishing is safe if and only if it leaves the control block alone while there is no
      file system. */
  lemma FinishIsSafe(s: State, finish: Finish)
    requires Safe(s)
    ensures AllSafe(s, FinishPlan(finish)) <==> (finish.cleared ==> s.cache.Filesystem?)
    ensures var r := Apply(s, FinishPlan(finish));
      && (r.cache.Filesystem? <==> s.cache.Filesystem?)
      && r.command == (if finish.cleared then "" else s.command)
      && (AllSafe(s, FinishPlan(finish)) ==> Safe(r))
  {
    var clear := SetPlan(finish.cleared, "", "");
    var mid := Apply(s, clear);
    NoUpdates();
    ClearIsSafe(s, finish.cleared);
    RemoveIsSafe(mid, finish.removed);
    SafeAppend(s, clear, if finish.removed then [RemoveCommandFile] else []);
  }

  lemma ClearIsSafe(s: State, works: bool)
    requires Safe(s)
    ensures var clear := SetPlan(works, "", "");
      && (AllSafe(s, clear) <==> (works ==> s.cache.Filesystem?))
      && Apply(s, clear) == if works then s.(command := "", recovery := "") else s
  {
    NoUpdates();
    SafeNothing(s);
    SafeOne(s, SetMessage("", ""));
  }

  lemma RemoveIsSafe(s: State, works: bool)
    ensures var plan, r := if works then [RemoveCommandFile] else [], Apply(s, if works then [RemoveCommandFile] else []);
      && (AllSafe(s, plan) <==> Safe(s)) && (Safe(r) <==> Safe(s))
      && (r.cache.Filesystem? <==> s.cache.Filesystem?)
      && r.command == s.command
  {
    SafeNothing(s);
    SafeOne(s, RemoveCommandFile);
  }

  lemma WipeTokens(v: string, end: string)
    requires IsLine(v) && (end == "" || end == "\n")
    ensures Tokens(PROGRAM + "\n" + WIPE_CACHE + "\n" + v + end) == [PROGRAM, WIPE_CACHE, v]
  {
    hide Tokens;
    var t := v + end;
    assert PROGRAM + "\n" + WIPE_CACHE + "\n" + v + end == PROGRAM + ("\n" + (WIPE_CACHE + ("\n" + t)));
    NextLine(PROGRAM, WIPE_CACHE + ("\n" + t));
    NextLine(WIPE_CACHE, t);
    FirstToken(v, end);
    NoTokens();
  }

  lemma WipeOptions(v: string)
    requires SEND_INTENT <= v
    ensures Wipes([WIPE_CACHE]) && Wipes([WIPE_CACHE, v])
  {
    assert [WIPE_CACHE][..0] == [] && [WIPE_CACHE, v][..1] == [WIPE_CACHE];
    assert !(SEND_INTENT <= WIPE_CACHE) by { assert SEND_INTENT[2] != WIPE_CACHE[2]; }
    assert !(UPDATE_PACKAGE <= WIPE_CACHE) by { assert UPDATE_PACKAGE[2] != WIPE_CACHE[2]; }
  }

  /** What is left of the intent in the wipe message, and whether its newline is. */
  lemma WipeMessageTail(intent: string) returns (v: string, end: string)
    requires '\n' !in intent
    ensures IsLine(v) && SEND_INTENT <= v && (end == "" || end == "\n")
    ensures WipeMessage(Some(intent)) == PROGRAM + "\n" + WIPE_CACHE + "\n" + v + end
  {
    var base, n := PROGRAM + "\n" + WIPE_CACHE + "\n", FIELD_SIZE - 1;
    assert Take(base, 31) == base;
    TakeTwice(base + SEND_INTENT, intent, n);
    TakeTwice(base + SEND_INTENT + intent, "\n", n);
    assert WipeMessage(Some(intent)) == Take(base + SEND_INTENT + intent + "\n", n);
    var whole := SEND_INTENT + intent;
    assert base + SEND_INTENT + intent == base + whole;
    v := Take(whole, n - |base|);
    end := if |whole| < n - |base| then "\n" else "";
    assert v[0] == '-';
    assert Take(base + whole + "\n", n) == base + v + end;
  }

  /** The wipe message is understood, with an intent or without. */
  lemma WipeMessageWipes(intent: Option<string>)
    requires intent.Some? ==> '\n' !in intent.value
    ensures WipeOn(WipeMessage(intent))
  {
    if intent.None? {
      TokensOfLines([PROGRAM, WIPE_CACHE]);
      PlainMessage();
      WipeOptions(SEND_INTENT);
      assert [PROGRAM, WIPE_CACHE][1..] == [WIPE_CACHE];
    } else {
      var v, end := WipeMessageTail(intent.value);
      WipeTokens(v, end);
      WipeOptions(v);
      assert [PROGRAM, WIPE_CACHE, v][1..] == [WIPE_CACHE, v];
    }
  }

  /** The message itself, with the intent unless that is too long. */
  lemma WipeMessageText(intent: string)
    requires |intent| <= 986
    ensures WipeMessage(None) == "recovery\n--wipe_cache\n"
    ensures WipeMessage(Some(intent)) == "recovery\n--wipe_cache\n--send_intent=" + intent + "\n"
  {
    var base := PROGRAM + "\n" + WIPE_CACHE + "\n";
    assert base == "recovery\n--wipe_cache\n" && Take(base, 31) == base;
    assert base + SEND_INTENT == "recovery\n--wipe_cache\n--send_intent=";
  }

  lemma PlainMessage()
    ensures WipeMessage(None) == Lines([PROGRAM, WIPE_CACHE])
  {
    assert [PROGRAM, WIPE_CACHE][1..] == [WIPE_CACHE];
    assert Lines([WIPE_CACHE]) == WIPE_CACHE + "\n" + "" == WIPE_CACHE + "\n";
    assert Lines([PROGRAM, WIPE_CACHE]) == PROGRAM + "\n" + (WIPE_CACHE + "\n");
    var base := PROGRAM + "\n" + WIPE_CACHE + "\n";
    assert base == PROGRAM + "\n" + (WIPE_CACHE + "\n");
    assert Take(base, 31) == base;
  }

  // ---------------------------------------------------------------- when a boot is safe

  lemma {:induction false} IntentIsLine(args: seq<string>)
    requires AllLines(args)
    ensures Parse(args).intent.Some? ==> '\n' !in Parse(args).intent.value
  {
    if args != [] {
      IntentIsLine(args[..|args|-1]);
      assert IsLine(args[|args|-1]);
    }
  }

  /** The wipe that a state asks for is found, and written back, by everyone who reads it. */
  lemma WipeIsFound(s: State, e: Events)
    requires WipeOn(s.recovery) && e.blockRead && !e.ignored
    ensures Wipes(Found(s, e)) && WipeOn(Pack(Found(s, e)))
  {
    var args := ArgsOf(s.recovery).value;
    assert args != [];
    assert ([PROGRAM] + args)[1..] == args;
    RewriteIsStable(s.recovery);
  }

  lemma FoundAreLines(s: State, e: Events)
    ensures AllLines(Found(s, e))
  {
    if e.blockRead { TokensAreLines(s.recovery); }
    assert Tokens("") == [];
  }

  /** Only a cache with a file system holds a package. */
  lemma PackageNeedsCache(s: State, e: Events)
    requires Safe(s) && Parse(Found(s, e)).package.Some?
    ensures s.cache.Filesystem? && CacheReady(s, e)
  {
    if !s.cache.Filesystem? {
      if e.blockRead && !e.ignored { WipeIsFound(s, e); }
    }
  }

  predicate StartsRecovery(s: State, e: Events) { e.forced || s.command == BOOT_RECOVERY }

  /** The firmware that a run of recovery goes on to install. */
  function Remembered(s: State, e: Events): Option<Firmware> {
    if Parse(Found(s, e)).package.Some? then Pending(e.images) else None
  }

  /** Recovery shows its menu before it goes on. */
  predicate Prompted(s: State, e: Events) { !WorkPlan(Parse(Found(s, e)), e).1 || e.textVisible }

  /** After get_args a wipe is on record. */
  predicate OnRecord(s: State, e: Events) {
    if e.saved then WipeOn(Pack(Found(s, e))) else s.command == BOOT_RECOVERY && WipeOn(s.recovery)
  }

  /** After the work the cache holds a file system. */
  predicate CacheReady(s: State, e: Events) {
    if Wipes(Found(s, e)) && !e.format.Untouched? then e.format.Done? else s.cache.Filesystem?
  }

  /** The bootloader is sent to a complete image only, and the record is kept when it is not
      reached, or when there is no file system in the cache in the end. */
  predicate InstallAllowed(e: Events) {
    if Reported(e.image) && e.instructed then e.image.Whole? && (e.rebootReturns ==> !e.atEnd.cleared)
    else e.atEnd.cleared ==> e.format.Done? || (e.format.Untouched? && e.image.NotStarted?)
  }

  /** What must not go wrong in a boot. */
  predicate Allowed(s: State, e: Events) {
    StartsRecovery(s, e) ==>
      // without a file system only a wipe may be put on record
      && (e.saved && !s.cache.Filesystem? ==> WipeOn(Pack(Found(s, e))))
      // the cache is only formatted with a wipe on record
      && (Wipes(Found(s, e)) && !e.format.Untouched? ==> OnRecord(s, e))
      // the record is only cleared with a file system
      && (Prompted(s, e) && e.atPrompt.cleared ==> CacheReady(s, e))
      && (if Remembered(s, e).Some? && e.armed then InstallAllowed(e) else e.atEnd.cleared ==> CacheReady(s, e))
  }

  // ---------------------------------------------------------------- installing firmware

  lemma ImageIsSafe(s: State, image: Outcome)
    requires Wiping(s)
    ensures AllSafe(s, ImagePlan(image)) && Wiping(Apply(s, ImagePlan(image)))
    ensures Apply(s, ImagePlan(image)).recovery == s.recovery
    ensures Apply(s, ImagePlan(image)).cache == CacheAfter(s.cache, image)
  {
    SafeNothing(s);
    if !image.NotStarted? {
      var destroyed := Next(s, Destroy);
      NoUpdates();
      SafeOne(s, Destroy);
      if image.Whole? {
        SafeOne(destroyed, FinishImage);
        SafeAppend(s, [Destroy], [FinishImage]);
        assert ImagePlan(image) == [Destroy] + [FinishImage];
      }
    }
  }

  function CacheAfter(cache: Cache, image: Outcome): Cache {
    match image
    case NotStarted => cache
    case Partial | Misreported => Destroyed
    case Whole => CompleteImage
  }

  /** Sending the bootloader to the image is safe if and only if the image is complete. */
  lemma InstructIsSafe(s: State, f: Firmware)
    requires Wiping(s)
    ensures var change := SetMessage(UpdateCommand(f), s.recovery);
      && Apply(s, [change]) == Next(s, change) && IsUpdate(Next(s, change).command)
      && Next(s, change).cache == s.cache
      && (AllSafe(s, [change]) <==> s.cache.CompleteImage?)
      && (AllSafe(s, [change]) ==> Safe(Next(s, change)))
  {
    CommandsDiffer(f);
    SafeOne(s, SetMessage(UpdateCommand(f), s.recovery));
  }

  /** The second part of a run: firmware, and finishing unless the device reboots. */
  function InstallPlan(firmware: Option<Firmware>, intent: Option<string>, e: Events): seq<Change> {
    var (install, rebooted) := FirmwarePlan(firmware, intent, e);
    install + (if rebooted then [] else FinishPlan(e.atEnd))
  }

  /** What a safe run comes to, if it could clear the control block in the end. */
  ghost predicate Ends(r: State, e: Events, update: bool) {
    e.atEnd.cleared ==> (IsUpdate(r.command) && update) || (Quiet(r) && r.command == "")
  }

  /** Installing firmware is safe at every interruption point if and only if this goes well. */
  lemma FirmwareIsSafe(s: State, firmware: Option<Firmware>, intent: Option<string>, e: Events)
    requires Safe(s) && (intent.Some? ==> '\n' !in intent.value) && (firmware.Some? ==> s.cache.Filesystem?)
    ensures var plan := InstallPlan(firmware, intent, e);
      && (AllSafe(s, plan) <==> if firmware.Some? && e.armed then InstallAllowed(e) else e.atEnd.cleared ==> s.cache.Filesystem?)
      && (AllSafe(s, plan) ==> Ends(Apply(s, plan), e, firmware.Some?))
  {
    if firmware.None? || !e.armed {
      assert [] + FinishPlan(e.atEnd) == FinishPlan(e.atEnd);
      NoUpdates();
      FinishIsSafe(s, e.atEnd);
    } else {
      var message := WipeMessage(intent);
      var armed := Next(s, SetMessage(BOOT_RECOVERY, message));
      WipeMessageWipes(intent);
      CommandsDiffer(firmware.value);
      SafeOne(s, SetMessage(BOOT_RECOVERY, message));
      ImageIsSafe(armed, e.image);
      hide WipeMessage, WipeOn, Apply, AllSafe, ImagePlan, FormatPlan, FinishPlan, IsUpdate, UpdateCommand;
      SafeAppend(s, [SetMessage(BOOT_RECOVERY, message)], ImagePlan(e.image));
      InstallEnds(s, Apply(armed, ImagePlan(e.image)), firmware.value, message, e);
    }
  }

  lemma InstallEnds(s: State, written: State, f: Firmware, message: Field, e: Events)
    requires Wiping(written) && written.recovery == message && s.cache.Filesystem?
    requires written.cache == CacheAfter(s.cache, e.image)
    requires var start := [SetMessage(BOOT_RECOVERY, message)] + ImagePlan(e.image);
      AllSafe(s, start) && Apply(s, start) == written
    ensures var start := [SetMessage(BOOT_RECOVERY, message)] + ImagePlan(e.image);
      var plan := if Reported(e.image) && e.instructed
        then start + [SetMessage(UpdateCommand(f), message)] + (if e.rebootReturns then FinishPlan(e.atEnd) else [])
        else start + FormatPlan(e.format) + FinishPlan(e.atEnd);
      && (AllSafe(s, plan) <==> InstallAllowed(e)) && (AllSafe(s, plan) ==> Ends(Apply(s, plan), e, true))
  {
    var start := [SetMessage(BOOT_RECOVERY, message)] + ImagePlan(e.image);
    if Reported(e.image) && e.instructed {
      SentEnds(s, written, start, f, e);
    } else {
      var cleaned := Apply(written, FormatPlan(e.format));
      NoUpdates();
      FormatIsSafe(written, e.format);
      FinishIsSafe(cleaned, e.atEnd);
      hide AllSafe, Apply, FormatPlan, FinishPlan, ImagePlan, WipeOn;
      SafeAppend(s, start, FormatPlan(e.format));
      SafeAppend(s, start + FormatPlan(e.format), FinishPlan(e.atEnd));
    }
  }

  /** The bootloader was told about the image. */
  lemma SentEnds(s: State, written: State, start: seq<Change>, f: Firmware, e: Events)
    requires Wiping(written) && Reported(e.image) && written.cache == CacheAfter(s.cache, e.image)
    requires AllSafe(s, start) && Apply(s, start) == written
    ensures var finish := if e.rebootReturns then FinishPlan(e.atEnd) else [];
      var plan := start + [SetMessage(UpdateCommand(f), written.recovery)] + finish;
      && (AllSafe(s, plan) <==> e.image.Whole? && (e.rebootReturns ==> !e.atEnd.cleared))
      && (AllSafe(s, plan) ==> Ends(Apply(s, plan), e, true))
  {
    var instruct := [SetMessage(UpdateCommand(f), written.recovery)];
    var sent := Next(written, instruct[0]);
    InstructIsSafe(written, f);
    if e.image.Whole? && e.rebootReturns { FinishIsSafe(sent, e.atEnd); }
    SafeNothing(sent);
    hide AllSafe, Apply, FinishPlan, WipeOn, IsUpdate, UpdateCommand;
    SafeAppend(s, start, instruct);
    SafeAppend(s, start + instruct, if e.rebootReturns then FinishPlan(e.atEnd) else []);
  }

  // ---------------------------------------------------------------- a run of recovery

  function SavePlan(s: State, e: Events): seq<Change> { SetPlan(e.saved, BOOT_RECOVERY, Pack(Found(s, e))) }

  function PromptPlan(s: State, e: Events): seq<Change> { if Prompted(s, e) then FinishPlan(e.atPrompt) else [] }

  /** Up to the firmware. */
  function FirstHalf(s: State, e: Events): seq<Change> {
    SavePlan(s, e) + WorkPlan(Parse(Found(s, e)), e).0 + PromptPlan(s, e)
  }

  lemma TwoHalves(s: State, e: Events)
    ensures RecoveryPlan(s, e) == FirstHalf(s, e) + InstallPlan(Remembered(s, e), Parse(Found(s, e)).intent, e)
  {
    hide WorkPlan, FirmwarePlan, FinishPlan, SetPlan, Found, Parse;
    var (install, rebooted) := FirmwarePlan(Remembered(s, e), Parse(Found(s, e)).intent, e);
    Regroup(FirstHalf(s, e), install, if rebooted then [] else FinishPlan(e.atEnd));
  }

  lemma {:induction false} WipingDataWipesCache(args: seq<string>)
    ensures Parse(args).wipeData ==> Parse(args).wipeCache
  {
    if args != [] { WipingDataWipesCache(args[..|args|-1]); }
  }

  /** The work formats the cache or changes nothing. */
  lemma WorkIsFormat(args: seq<string>, e: Events)
    ensures WorkPlan(Parse(args), e).0 == if Wipes(args) then FormatPlan(e.format) else []
  {
    WipingDataWipesCache(args);
  }

  lemma SaveIsSafe(s: State, e: Events)
    requires Safe(s)
    ensures var r := Apply(s, SavePlan(s, e));
      && (AllSafe(s, SavePlan(s, e)) <==> (e.saved && !s.cache.Filesystem? ==> WipeOn(Pack(Found(s, e)))))
      && (AllSafe(s, SavePlan(s, e)) ==> Safe(r) && (Wiping(r) <==> OnRecord(s, e)))
      && r.cache == s.cache
  {
    NoUpdates();
    SafeOne(s, SetMessage(BOOT_RECOVERY, Pack(Found(s, e))));
    SafeNothing(s);
  }

  lemma WorkIsSafe(s: State, e: Events)
    requires Safe(s)
    ensures var plan := SavePlan(s, e) + WorkPlan(Parse(Found(s, e)), e).0;
      var r := Apply(s, plan);
      && (AllSafe(s, plan) <==>
            && (e.saved && !s.cache.Filesystem? ==> WipeOn(Pack(Found(s, e))))
            && (Wipes(Found(s, e)) && !e.format.Untouched? ==> OnRecord(s, e)))
      && (AllSafe(s, plan) ==> Safe(r))
      && (r.cache.Filesystem? <==> CacheReady(s, e))
  {
    var work := WorkPlan(Parse(Found(s, e)), e).0;
    var saved := Apply(s, SavePlan(s, e));
    SaveIsSafe(s, e);
    WorkIsFormat(Found(s, e), e);
    if AllSafe(s, SavePlan(s, e)) {
      FormatIsSafe(saved, e.format);
      SafeNothing(saved);
    }
    WorkCounts(saved, Found(s, e), e);
    assert CacheReady(s, e) <==> if Wipes(Found(s, e)) && !e.format.Untouched? then e.format.Done? else s.cache.Filesystem?;
    hide *;
    SafeAppend(s, SavePlan(s, e), work);
  }

  lemma WorkCounts(s: State, args: seq<string>, e: Events)
    ensures var r := Apply(s, WorkPlan(Parse(args), e).0);
      && (r.cache.Filesystem? <==> if Wipes(args) && !e.format.Untouched? then e.format.Done? else s.cache.Filesystem?)
  {
    WorkIsFormat(args, e);
    ApplyOne(s, Destroy);
    ApplyAppend(s, [Destroy], [MakeFilesystem]);
    ApplyOne(Next(s, Destroy), MakeFilesystem);
    assert [Destroy] + [MakeFilesystem] == [Destroy, MakeFilesystem];
  }

  lemma PromptIsSafe(s: State, done: State, e: Events)
    requires Safe(done)
    ensures var r := Apply(done, PromptPlan(s, e));
      && (AllSafe(done, PromptPlan(s, e)) <==> (Prompted(s, e) && e.atPrompt.cleared ==> done.cache.Filesystem?))
      && (AllSafe(done, PromptPlan(s, e)) ==> Safe(r))
      && (r.cache.Filesystem? <==> done.cache.Filesystem?)
  {
    FinishIsSafe(done, e.atPrompt);
    SafeNothing(done);
  }

  lemma FirstHalfIsSafe(s: State, e: Events)
    requires Safe(s)
    ensures var r := Apply(s, FirstHalf(s, e));
      && (AllSafe(s, FirstHalf(s, e)) <==>
            && (e.saved && !s.cache.Filesystem? ==> WipeOn(Pack(Found(s, e))))
            && (Wipes(Found(s, e)) && !e.format.Untouched? ==> OnRecord(s, e))
            && (Prompted(s, e) && e.atPrompt.cleared ==> CacheReady(s, e)))
      && (AllSafe(s, FirstHalf(s, e)) ==> Safe(r) && (r.cache.Filesystem? <==> CacheReady(s, e)))
  {
    var plan := SavePlan(s, e) + WorkPlan(Parse(Found(s, e)), e).0;
    var done := Apply(s, plan);
    assert FirstHalf(s, e) == plan + PromptPlan(s, e);
    hide *;
    WorkIsSafe(s, e);
    SafeAppend(s, plan, PromptPlan(s, e));
    if AllSafe(s, plan) { PromptIsSafe(s, done, e); }
  }

  /** What follows the first half of a safe run. */
  lemma SecondHalfIsSafe(s: State, mid: State, e: Events)
    requires Safe(s) && Safe(mid) && (mid.cache.Filesystem? <==> CacheReady(s, e))
    ensures var plan := InstallPlan(Remembered(s, e), Parse(Found(s, e)).intent, e);
      && (AllSafe(mid, plan) <==>
            if Remembered(s, e).Some? && e.armed then InstallAllowed(e) else e.atEnd.cleared ==> CacheReady(s, e))
      && (AllSafe(mid, plan) ==> Ends(Apply(mid, plan), e, Parse(Found(s, e)).package.Some?))
  {
    FoundAreLines(s, e);
    IntentIsLine(Found(s, e));
    if Remembered(s, e).Some? { PackageNeedsCache(s, e); }
    hide Safe, AllSafe, InstallPlan, Found, Parse, IsUpdate, CacheReady;
    FirmwareIsSafe(mid, Remembered(s, e), Parse(Found(s, e)).intent, e);
  }

  lemma {:induction false} FormattedGrows(s: State, cs: seq<Change>)
    ensures Apply(s, cs).formatted >= s.formatted
  {
    if cs != [] { FormattedGrows(s, cs[..|cs|-1]); }
  }

  /** A run that is to wipe the cache and can format it does so. */
  lemma WipeIsDone(s: State, e: Events)
    requires Wipes(Found(s, e)) && e.format.Done?
    ensures Apply(s, RecoveryPlan(s, e)).formatted > s.formatted
  {
    var save := SavePlan(s, e);
    var rest := PromptPlan(s, e) + InstallPlan(Remembered(s, e), Parse(Found(s, e)).intent, e);
    TwoHalves(s, e);
    WorkIsFormat(Found(s, e), e);
    assert FirstHalf(s, e) == save + [Destroy, MakeFilesystem] + PromptPlan(s, e);
    hide *;
    assert RecoveryPlan(s, e) == save + [Destroy, MakeFilesystem] + rest;
    FormattedGrows(s, save);
    FormatCounts(s, save, rest);
  }

  lemma FormatCounts(s: State, before: seq<Change>, after: seq<Change>)
    requires Apply(s, before).formatted >= s.formatted
    ensures Apply(s, before + [Destroy, MakeFilesystem] + after).formatted > s.formatted
  {
    var r := Apply(s, before);
    ApplyOne(r, Destroy);
    ApplyOne(Next(r, Destroy), MakeFilesystem);
    hide Apply;
    assert [Destroy, MakeFilesystem] == [Destroy] + [MakeFilesystem];
    ApplyAppend(s, before + [Destroy, MakeFilesystem], after);
    ApplyAppend(s, before, [Destroy, MakeFilesystem]);
    ApplyAppend(r, [Destroy], [MakeFilesystem]);
    FormattedGrows(Apply(s, before + [Destroy, MakeFilesystem]), after);
  }

  /** A run of recovery is safe at every interruption point if and only if none of what must
      not go wrong does; if it can clear the control block it leaves it clear, or an update
      on its way, and a wipe that can be done is done. */
  lemma RecoveryIsSafe(s: State, e: Events)
    requires Safe(s) && StartsRecovery(s, e)
    ensures var plan, r := RecoveryPlan(s, e), Apply(s, RecoveryPlan(s, e));
      && (AllSafe(s, plan) <==> Allowed(s, e))
      && (AllSafe(s, plan) ==> Safe(r) && Ends(r, e, Parse(Found(s, e)).package.Some?))
      && (Wipes(Found(s, e)) && e.format.Done? ==> r.formatted > s.formatted)
  {
    if Wipes(Found(s, e)) && e.format.Done? { WipeIsDone(s, e); }
    var first, second := FirstHalf(s, e), InstallPlan(Remembered(s, e), Parse(Found(s, e)).intent, e);
    assert Allowed(s, e) <==>
      && (e.saved && !s.cache.Filesystem? ==> WipeOn(Pack(Found(s, e))))
      && (Wipes(Found(s, e)) && !e.format.Untouched? ==> OnRecord(s, e))
      && (Prompted(s, e) && e.atPrompt.cleared ==> CacheReady(s, e))
      && (if Remembered(s, e).Some? && e.armed then InstallAllowed(e) else e.atEnd.cleared ==> CacheReady(s, e));
    TwoHalves(s, e);
    if AllSafe(s, first + second) { AlwaysCut(Safe, s, first + second, 0); }
    hide *;
    FirstHalfIsSafe(s, e);
    SafeAppend(s, first, second);
    if AllSafe(s, first) { SecondHalfIsSafe(s, Apply(s, first), e); }
  }

  /** Every boot, wherever it may be interrupted. */
  lemma BootIsSafe(s: State, e: Events)
    requires Safe(s)
    ensures AllSafe(s, BootPlan(s, e)) <==> Allowed(s, e)
    ensures Allowed(s, e) ==> Safe(Boot(s, e))
  {
    if AllSafe(s, BootPlan(s, e)) { AlwaysCut(Safe, s, BootPlan(s, e), e.power); }
    NoUpdates();
    hide Found, WipeOn;
    if StartsRecovery(s, e) {
      RecoveryIsSafe(s, e);
    } else if IsUpdate(s.command) {
      SafeOne(s, SetMessage(BOOT_RECOVERY, s.recovery));
    } else if e.request.Some? {
      SafeOne(s, WriteCommandFile(e.request.value));
    } else {
      SafeNothing(s);
    }
  }

  // ---------------------------------------------------------------- a series of boots

  /** What holds of every boot of a series and the state it starts from. */
  ghost predicate Throughout(p: (State, Events) -> bool, s: State, es: seq<Events>) {
    forall i | 0 <= i < |es| :: p(Boots(s, es[..i]), es[i])
  }

  lemma LastBoot(p: (State, Events) -> bool, s: State, es: seq<Events>)
    requires es != []
    ensures var front, last := es[..|es|-1], es[|es|-1];
      Throughout(p, s, es) <==> Throughout(p, s, front) && p(Boots(s, front), last)
  {
    hide Boots;
    var front := es[..|es|-1];
    assert forall i | 0 <= i < |front| :: front[..i] == es[..i] && front[i] == es[i];
    assert es[..|front|] == front;
    if Throughout(p, s, es) {
      forall i | 0 <= i < |front| ensures p(Boots(s, front[..i]), front[i]) { assert p(Boots(s, es[..i]), es[i]); }
    } else if Throughout(p, s, front) && p(Boots(s, front), es[|front|]) {
      forall i | 0 <= i < |es| ensures p(Boots(s, es[..i]), es[i]) {
        if i < |front| { assert p(Boots(s, front[..i]), front[i]); }
      }
    }
  }

  ghost predicate SafeBoot(s: State, e: Events) { AllSafe(s, BootPlan(s, e)) }

  /** All that must not go wrong in a series of boots, each cut short at any point. */
  ghost predicate AllAllowed(s: State, es: seq<Events>) { Throughout(Allowed, s, es) }

  /** The state is safe at every point of every boot of a series. */
  ghost predicate AlwaysSafe(s: State, es: seq<Events>) { Throughout(SafeBoot, s, es) }

  /** A series of boots is safe at every point if and only if none of what must not go wrong
      does in any of them. */
  lemma {:induction false} BootsAreSafe(s: State, es: seq<Events>)
    requires Safe(s)
    ensures AlwaysSafe(s, es) <==> AllAllowed(s, es)
    ensures AllAllowed(s, es) ==> Safe(Boots(s, es))
  {
    if es != [] {
      hide Safe, Allowed, AllSafe, Boot, BootPlan, Throughout;
      var front, last := es[..|es|-1], es[|es|-1];
      LastBoot(Allowed, s, es);
      LastBoot(SafeBoot, s, es);
      BootsAreSafe(s, front);
      if Safe(Boots(s, front)) { BootIsSafe(Boots(s, front), last); }
    }
  }

  /** An update command is only given for a complete image. */
  predicate InstructedWell(s: State) { IsUpdate(s.command) ==> s.cache.CompleteImage? }

  /** The changes up to the update command. */
  function UpToCommand(s: State, f: Firmware, e: Events): seq<Change> {
    var message := WipeMessage(Parse(Found(s, e)).intent);
    FirstHalf(s, e) + ([SetMessage(BOOT_RECOVERY, message)] + ImagePlan(e.image)) + [SetMessage(UpdateCommand(f), message)]
  }

  /** A run that sets the update command names the firmware that the package gave first, and
      keeps the promise that goes with it if and only if the image it was told about is
      complete. If the device reboots, that is the state it leaves. */
  lemma CommandIsEarned(s: State, e: Events)
    requires Safe(s) && StartsRecovery(s, e)
    requires Remembered(s, e).Some? && e.armed && Reported(e.image) && e.instructed
    ensures var plan, done := RecoveryPlan(s, e), UpToCommand(s, Remembered(s, e).value, e);
      && done <= plan && IsUpdate(Apply(s, done).command)
      && e.images != [] && Apply(s, done).command == "update-" + e.images[0].firmware
      && Apply(s, done).recovery == WipeMessage(Parse(Found(s, e)).intent)
      && (InstructedWell(Apply(s, done)) <==> e.image.Whole?)
      && (!e.rebootReturns ==> plan == done && (|plan| <= e.power ==> Boot(s, e) == Apply(s, done)))
  {
    var f := Remembered(s, e).value;
    var message := WipeMessage(Parse(Found(s, e)).intent);
    var start := [SetMessage(BOOT_RECOVERY, message)] + ImagePlan(e.image);
    var mid := Apply(s, FirstHalf(s, e));
    CommandPlanned(s, e);
    ImageLeft(mid, message, e);
    CommandsDiffer(f);
    assert e.images != [] && UpdateCommand(f) == "update-" + e.images[0].firmware;
    hide FirstHalf, ImagePlan, WipeMessage, RecoveryPlan, Found, Parse, IsUpdate, UpdateCommand, Remembered, Safe;
    ApplyAppend(s, FirstHalf(s, e), start);
    ApplyAppend(s, FirstHalf(s, e) + start, [SetMessage(UpdateCommand(f), message)]);
    ApplyOne(Apply(mid, start), SetMessage(UpdateCommand(f), message));
  }

  lemma CommandPlanned(s: State, e: Events)
    requires Remembered(s, e).Some? && e.armed && Reported(e.image) && e.instructed
    ensures UpToCommand(s, Remembered(s, e).value, e) <= RecoveryPlan(s, e)
    ensures !e.rebootReturns ==> UpToCommand(s, Remembered(s, e).value, e) == RecoveryPlan(s, e)
  {
    hide FirstHalf, WipeMessage, RecoveryPlan, Found, Parse, Remembered, ImagePlan, FinishPlan;
    var f, message := Remembered(s, e).value, WipeMessage(Parse(Found(s, e)).intent);
    var start := [SetMessage(BOOT_RECOVERY, message)] + ImagePlan(e.image);
    var instruct := [SetMessage(UpdateCommand(f), message)];
    var finish := if e.rebootReturns then FinishPlan(e.atEnd) else [];
    TwoHalves(s, e);
    assert InstallPlan(Remembered(s, e), Parse(Found(s, e)).intent, e) == start + instruct + finish;
    assert FirstHalf(s, e) + (start + instruct + finish) == UpToCommand(s, f, e) + finish;
    assert UpToCommand(s, f, e) + [] == UpToCommand(s, f, e);
  }

  lemma ImageLeft(s: State, message: Field, e: Events)
    requires Reported(e.image)
    ensures Apply(s, [SetMessage(BOOT_RECOVERY, message)] + ImagePlan(e.image)).cache ==
      if e.image.Whole? then CompleteImage else Destroyed
  {
    var arm := [SetMessage(BOOT_RECOVERY, message)];
    ApplyAppend(s, arm, ImagePlan(e.image));
    var armed := Apply(s, arm);
    if e.image.Whole? {
      ApplyAppend(armed, [Destroy], [FinishImage]);
      assert ImagePlan(e.image) == [Destroy] + [FinishImage];
      ApplyOne(Apply(armed, [Destroy]), FinishImage);
    } else {
      ApplyOne(armed, Destroy);
    }
  }
}
