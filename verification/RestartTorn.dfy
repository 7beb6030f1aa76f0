/** The restart protocol when a write of the control block can itself be cut short. On flash
    the block is erased before it is written (see MtdWriter), so that in between there is
    no record at all. Exactly what is still safe then. */
module RestartTorn {
  import opened Wrappers  // Option
  import opened BcbArgs
  import opened RestartProtocol
  import opened RestartSafety
  import opened RestartProgress

  const ERASED: Change := SetMessage("", "")

  /** A series of changes in which each write of the control block takes two steps. An erased
      one holds no command and no message. */
  function Torn(plan: seq<Change>): seq<Change> {
    if plan == [] then []
    else
      var last := plan[|plan|-1];
      Torn(plan[..|plan|-1]) + if last.SetMessage? then [ERASED, last] else [last]
  }

  /** The control block is written only while the cache holds a file system. */
  ghost predicate WithCache(s: State, plan: seq<Change>) {
    forall n | 0 <= n < |plan| && plan[n].SetMessage? :: Apply(s, plan[..n]).cache.Filesystem?
  }

  lemma WithCacheAppend(s: State, a: seq<Change>, b: seq<Change>)
    ensures WithCache(s, a + b) <==> WithCache(s, a) && WithCache(Apply(s, a), b)
    ensures Apply(s, a + b) == Apply(Apply(s, a), b)
  {
    ApplyAppend(s, a, b);
    hide Apply;
    forall n | 0 <= n < |a + b| ensures Apply(s, (a + b)[..n]) ==
      if n < |a| then Apply(s, a[..n]) else Apply(Apply(s, a), b[..n - |a|])
    {
      Prefixes(s, a, b, n);
    }
    if WithCache(s, a + b) {
      forall n | 0 <= n < |a| && a[n].SetMessage? ensures Apply(s, a[..n]).cache.Filesystem? {
        assert (a + b)[n] == a[n];
      }
      forall n | 0 <= n < |b| && b[n].SetMessage? ensures Apply(Apply(s, a), b[..n]).cache.Filesystem? {
        assert (a + b)[|a| + n] == b[n];
      }
    }
  }

  /** With torn writes a series is safe if and only if it is safe without, and writes the
      control block only while the cache holds a file system. */
  lemma {:induction false} TornIsSafe(s: State, plan: seq<Change>)
    ensures AllSafe(s, Torn(plan)) <==> AllSafe(s, plan) && WithCache(s, plan)
    ensures Apply(s, Torn(plan)) == Apply(s, plan)
  {
    if plan == [] {
      SafeNothing(s);
    } else {
      var n := |plan| - 1;
      var front, last := plan[..n], plan[n];
      var mid := Apply(s, front);
      assert plan == front + [last];
      TornIsSafe(s, front);
      LastIsTorn(mid, last);
      hide Apply, AllSafe, WithCache;
      SafeAppend(s, front, [last]);
      WithCacheAppend(s, front, [last]);
      SafeAppend(s, Torn(front), if last.SetMessage? then [ERASED, last] else [last]);
    }
  }

  lemma LastIsTorn(s: State, c: Change)
    ensures var torn := if c.SetMessage? then [ERASED, c] else [c];
      && (AllSafe(s, torn) <==> AllSafe(s, [c]) && WithCache(s, [c]))
      && Apply(s, torn) == Apply(s, [c])
  {
    SafeOne(s, c);
    assert [c][..0] == [] && Apply(s, []) == s;
    assert WithCache(s, [c]) <==> (c.SetMessage? ==> s.cache.Filesystem?) by { assert [c][0] == c; }
    if c.SetMessage? {
      NoUpdates();
      assert [ERASED, c] == [ERASED] + [c];
      SafeOne(s, ERASED);
      SafeOne(Next(s, ERASED), c);
      SafeAppend(s, [ERASED], [c]);
      assert Next(Next(s, ERASED), c) == Next(s, c);
    }
  }

  // ---------------------------------------------------------------- one boot

  /** The bootloader is told about an image. */
  predicate Instructs(s: State, e: Events) {
    Remembered(s, e).Some? && e.armed && Reported(e.image) && e.instructed
  }

  /** No firmware is installed, and the arguments are not saved without a file system. */
  predicate TornAllowed(s: State, e: Events) {
    && Allowed(s, e)
    && if StartsRecovery(s, e) then (e.saved ==> s.cache.Filesystem?) && !Instructs(s, e) else !IsUpdate(s.command)
  }

  lemma NoneSet(s: State, plan: seq<Change>)
    requires forall n | 0 <= n < |plan| :: !plan[n].SetMessage?
    ensures WithCache(s, plan)
  {
  }

  lemma OneSet(s: State, works: bool, command: string, recovery: Field)
    ensures WithCache(s, SetPlan(works, command, recovery)) <==> (works ==> s.cache.Filesystem?)
    ensures Apply(s, SetPlan(works, command, recovery)).cache == s.cache
  {
    var set1 := [SetMessage(command, recovery)];
    assert set1[..0] == [] && set1[0].SetMessage? && Apply(s, []) == s;
    ApplyOne(s, SetMessage(command, recovery));
  }

  lemma FinishWithCache(s: State, finish: Finish)
    ensures WithCache(s, FinishPlan(finish)) <==> (finish.cleared ==> s.cache.Filesystem?)
  {
    var clear := SetPlan(finish.cleared, "", "");
    var remove := if finish.removed then [RemoveCommandFile] else [];
    OneSet(s, finish.cleared, "", "");
    NoneSet(Apply(s, clear), remove);
    WithCacheAppend(s, clear, remove);
  }

  lemma InstallWithCache(s: State, firmware: Option<Firmware>, intent: Option<string>, e: Events)
    requires firmware.Some? ==> s.cache.Filesystem?
    requires if firmware.Some? && e.armed then InstallAllowed(e) else e.atEnd.cleared ==> s.cache.Filesystem?
    ensures WithCache(s, InstallPlan(firmware, intent, e)) <==>
      !(firmware.Some? && e.armed && Reported(e.image) && e.instructed)
  {
    if firmware.None? || !e.armed {
      assert [] + FinishPlan(e.atEnd) == FinishPlan(e.atEnd);
      FinishWithCache(s, e.atEnd);
    } else {
      var message := WipeMessage(intent);
      var arm := SetPlan(true, BOOT_RECOVERY, message);
      OneSet(s, true, BOOT_RECOVERY, message);
      NoneSet(Apply(s, arm), ImagePlan(e.image));
      ImageLeaves(Apply(s, arm), e.image);
      hide WipeMessage, Apply, WithCache, ImagePlan, FormatPlan, FinishPlan, UpdateCommand;
      WithCacheAppend(s, arm, ImagePlan(e.image));
      WrittenWithCache(s, arm + ImagePlan(e.image), firmware.value, message, e);
    }
  }

  lemma ImageLeaves(s: State, image: Outcome)
    ensures Apply(s, ImagePlan(image)).cache == CacheAfter(s.cache, image)
  {
    ApplyOne(s, Destroy);
    ApplyOne(Next(s, Destroy), FinishImage);
    ApplyAppend(s, [Destroy], [FinishImage]);
    assert [Destroy, FinishImage] == [Destroy] + [FinishImage];
  }

  lemma FormatLeaves(s: State, format: Formatting)
    ensures WithCache(s, FormatPlan(format))
    ensures Apply(s, FormatPlan(format)).cache.Filesystem? <==> if format.Untouched? then s.cache.Filesystem? else format.Done?
  {
    NoneSet(s, FormatPlan(format));
    ApplyOne(s, Destroy);
    ApplyOne(Next(s, Destroy), MakeFilesystem);
    ApplyAppend(s, [Destroy], [MakeFilesystem]);
    assert [Destroy, MakeFilesystem] == [Destroy] + [MakeFilesystem];
  }

  lemma WrittenWithCache(s: State, start: seq<Change>, f: Firmware, message: Field, e: Events)
    requires s.cache.Filesystem? && WithCache(s, start) && InstallAllowed(e)
    requires Apply(s, start).cache == CacheAfter(s.cache, e.image)
    ensures var plan := if Reported(e.image) && e.instructed
        then start + [SetMessage(UpdateCommand(f), message)] + (if e.rebootReturns then FinishPlan(e.atEnd) else [])
        else start + FormatPlan(e.format) + FinishPlan(e.atEnd);
      WithCache(s, plan) <==> !(Reported(e.image) && e.instructed)
  {
    var written := Apply(s, start);
    if Reported(e.image) && e.instructed {
      var instruct := SetPlan(true, UpdateCommand(f), message);
      OneSet(written, true, UpdateCommand(f), message);
      hide Apply, WithCache, FinishPlan, UpdateCommand;
      WithCacheAppend(s, start, instruct);
      WithCacheAppend(s, start + instruct, if e.rebootReturns then FinishPlan(e.atEnd) else []);
    } else {
      FormatLeaves(written, e.format);
      FinishWithCache(Apply(written, FormatPlan(e.format)), e.atEnd);
      hide Apply, WithCache, FormatPlan, FinishPlan;
      WithCacheAppend(s, start, FormatPlan(e.format));
      WithCacheAppend(s, start + FormatPlan(e.format), FinishPlan(e.atEnd));
    }
  }

  lemma WorkLeaves(s: State, args: seq<string>, e: Events)
    ensures var work := WorkPlan(Parse(args), e).0;
      && WithCache(s, work)
      && (Apply(s, work).cache.Filesystem? <==>
            if Wipes(args) && !e.format.Untouched? then e.format.Done? else s.cache.Filesystem?)
  {
    WorkIsFormat(args, e);
    FormatLeaves(s, e.format);
    ApplyOne(s, Destroy);
  }

  lemma PromptLeaves(s: State, done: State, e: Events)
    requires Prompted(s, e) && e.atPrompt.cleared ==> done.cache.Filesystem?
    ensures WithCache(done, PromptPlan(s, e))
    ensures Apply(done, PromptPlan(s, e)).cache.Filesystem? <==> done.cache.Filesystem?
  {
    FinishWithCache(done, e.atPrompt);
    NoneSet(done, []);
    var clear := SetPlan(e.atPrompt.cleared, "", "");
    OneSet(done, e.atPrompt.cleared, "", "");
    ApplyOne(Apply(done, clear), RemoveCommandFile);
    ApplyAppend(done, clear, if e.atPrompt.removed then [RemoveCommandFile] else []);
    ApplyOne(done, RemoveCommandFile);
  }

  lemma RecoveryWithCache(s: State, e: Events)
    requires Safe(s) && StartsRecovery(s, e) && Allowed(s, e)
    ensures WithCache(s, RecoveryPlan(s, e)) <==> (e.saved ==> s.cache.Filesystem?) && !Instructs(s, e)
  {
    var save, work, prompt := SavePlan(s, e), WorkPlan(Parse(Found(s, e)), e).0, PromptPlan(s, e);
    var install := InstallPlan(Remembered(s, e), Parse(Found(s, e)).intent, e);
    var saved := Apply(s, save);
    var done := Apply(saved, work);
    TwoHalves(s, e);
    assert FirstHalf(s, e) == save + work + prompt;
    if Remembered(s, e).Some? { PackageNeedsCache(s, e); }
    OneSet(s, e.saved, BOOT_RECOVERY, Pack(Found(s, e)));
    WorkLeaves(saved, Found(s, e), e);
    PromptLeaves(s, done, e);
    hide Apply, WithCache, RecoveryPlan, FirstHalf, PromptPlan, InstallPlan, WorkPlan, SavePlan, Found, Parse, Wipes;
    InstallWithCache(Apply(done, prompt), Remembered(s, e), Parse(Found(s, e)).intent, e);
    WithCacheAppend(s, save, work);
    WithCacheAppend(s, save + work, prompt);
    WithCacheAppend(s, save + work + prompt, install);
  }

  /** With torn writes a boot is safe at every point if and only if it is without, the
      arguments are not saved while there is no file system, and the bootloader neither is
      told about an image nor comes back from one. */
  lemma TornBootIsSafe(s: State, e: Events)
    requires Safe(s)
    ensures AllSafe(s, Torn(BootPlan(s, e))) <==> TornAllowed(s, e)
    ensures TornAllowed(s, e) ==> Safe(Apply(s, Cut(Torn(BootPlan(s, e)), e.power)))
  {
    var plan := BootPlan(s, e);
    if AllSafe(s, Torn(plan)) { AlwaysCut(Safe, s, Torn(plan), e.power); }
    TornIsSafe(s, plan);
    BootIsSafe(s, e);
    if StartsRecovery(s, e) {
      if Allowed(s, e) { RecoveryWithCache(s, e); }
    } else if IsUpdate(s.command) {
      OneSet(s, true, BOOT_RECOVERY, s.recovery);
    } else {
      NoneSet(s, plan);
    }
  }

  /** With everything going well, a boot that wipes stays safe with torn writes and one that
      updates firmware does not. */
  lemma UpdateIsTorn()
    ensures AllSafe(WIPE_ASKED, Torn(BootPlan(WIPE_ASKED, FINE)))
    ensures AllSafe(UPDATE_ASKED, BootPlan(UPDATE_ASKED, FINE))
    ensures !AllSafe(UPDATE_ASKED, Torn(BootPlan(UPDATE_ASKED, FINE)))
  {
    UpdateOption();
    Asked([WIPE_CACHE], FINE);
    Asked([UPDATE_PACKAGE], FINE);
    WipeAsked();
    assert Remembered(WIPE_ASKED, FINE).None? && Remembered(UPDATE_ASKED, FINE).Some?;
    hide AllSafe, BootPlan, Torn, Safe, Found, Parse, Remembered, Allowed;
    AskedToWipe(FINE);
    AskedToUpdate(FINE);
    BootIsSafe(WIPE_ASKED, FINE);
    TornBootIsSafe(WIPE_ASKED, FINE);
    TornBootIsSafe(UPDATE_ASKED, FINE);
  }
}
