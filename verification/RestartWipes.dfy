/** What becomes of a wipe that is on record in the control block: exactly when it is carried
    out before it leaves the record. */
module RestartWipes {
  import opened Wrappers  // Option
  import opened Series
  import opened BcbArgs
  import opened RestartProtocol
  import opened RestartSafety

  /** A wipe is on record, and recovery is going to be started for it. */
  predicate Due(s: State) { (s.command == BOOT_RECOVERY || IsUpdate(s.command)) && WipeOn(s.recovery) }

  /** The cache has been formatted since it had been so often, or a wipe is due. */
  function Kept(formatted: nat): State -> bool {
    (s: State) => s.formatted > formatted || Due(s)
  }

  ghost predicate AllKept(formatted: nat, s: State, plan: seq<Change>) { Always(Kept(formatted), s, plan) }

  lemma KeptAppend(n: nat, s: State, a: seq<Change>, b: seq<Change>)
    ensures AllKept(n, s, a + b) <==> AllKept(n, s, a) && AllKept(n, Apply(s, a), b)
    ensures Apply(s, a + b) == Apply(Apply(s, a), b)
  {
    AlwaysAppend(Kept(n), s, a, b);
  }

  lemma KeptOne(n: nat, s: State, c: Change)
    ensures AllKept(n, s, [c]) <==> Kept(n)(s) && Kept(n)(Next(s, c))
    ensures Apply(s, [c]) == Next(s, c)
  {
    AlwaysOne(Kept(n), s, c);
  }

  lemma KeptNothing(n: nat, s: State)
    ensures AllKept(n, s, []) <==> Kept(n)(s)
    ensures Apply(s, []) == s
  {
    AlwaysNothing(Kept(n), s);
  }

  /** Nothing undoes a wipe that was carried out. */
  lemma KeptOnceDone(n: nat, s: State, plan: seq<Change>)
    requires s.formatted > n
    ensures AllKept(n, s, plan) && Apply(s, plan).formatted > n
  {
    hide Apply;
    forall k | 0 <= k <= |plan| ensures Kept(n)(Apply(s, plan[..k])) { FormattedGrows(s, plan[..k]); }
    FormattedGrows(s, plan);
  }

  /** A wipe is due and has not been carried out yet. */
  predicate Awaited(n: nat, s: State) { Due(s) && s.formatted == n }

  lemma SetIsKept(n: nat, s: State, works: bool, command: string, recovery: Field)
    requires Awaited(n, s)
    ensures var change, r := SetPlan(works, command, recovery), Apply(s, SetPlan(works, command, recovery));
      && (AllKept(n, s, change) <==> (works ==> Due(r))) && r.formatted == n && (!works ==> r == s)
      && (works ==> r.command == command && r.recovery == recovery)
  {
    KeptNothing(n, s);
    KeptOne(n, s, SetMessage(command, recovery));
  }

  lemma FormatIsKept(n: nat, s: State, format: Formatting)
    requires Awaited(n, s)
    ensures var plan, r := FormatPlan(format), Apply(s, FormatPlan(format));
      AllKept(n, s, plan) && if format.Done? then r.formatted > n else Awaited(n, r)
  {
    var destroyed := Next(s, Destroy);
    KeptNothing(n, s);
    KeptOne(n, s, Destroy);
    KeptOne(n, destroyed, MakeFilesystem);
    KeptAppend(n, s, [Destroy], [MakeFilesystem]);
    assert [Destroy] + [MakeFilesystem] == [Destroy, MakeFilesystem];
  }

  lemma FinishIsKept(n: nat, s: State, finish: Finish)
    requires Awaited(n, s)
    ensures var plan, r := FinishPlan(finish), Apply(s, FinishPlan(finish));
      (AllKept(n, s, plan) <==> !finish.cleared) && (!finish.cleared ==> Awaited(n, r))
  {
    var clear := SetPlan(finish.cleared, "", "");
    var mid := Apply(s, clear);
    NoUpdates();
    SetIsKept(n, s, finish.cleared, "", "");
    KeptNothing(n, mid);
    KeptOne(n, mid, RemoveCommandFile);
    KeptAppend(n, s, clear, if finish.removed then [RemoveCommandFile] else []);
  }

  lemma ImageIsKept(n: nat, s: State, image: Outcome)
    requires Awaited(n, s)
    ensures var plan, r := ImagePlan(image), Apply(s, ImagePlan(image));
      AllKept(n, s, plan) && Awaited(n, r) && r.recovery == s.recovery
  {
    var destroyed := Next(s, Destroy);
    KeptNothing(n, s);
    KeptOne(n, s, Destroy);
    KeptOne(n, destroyed, FinishImage);
    KeptAppend(n, s, [Destroy], [FinishImage]);
    assert [Destroy] + [FinishImage] == [Destroy, FinishImage];
  }

  /** After a wipe was put on record for firmware, it stays there exactly if the cache is
      formatted instead, the device reboots, or the control block cannot be cleared. */
  predicate InstallKeeps(e: Events) {
    if Reported(e.image) && e.instructed then e.rebootReturns ==> !e.atEnd.cleared
    else e.format.Done? || !e.atEnd.cleared
  }

  lemma InstallIsKept(n: nat, s: State, firmware: Option<Firmware>, intent: Option<string>, e: Events)
    requires Awaited(n, s) && (intent.Some? ==> '\n' !in intent.value)
    ensures AllKept(n, s, InstallPlan(firmware, intent, e)) <==>
      if firmware.Some? && e.armed then InstallKeeps(e) else !e.atEnd.cleared
  {
    if firmware.None? || !e.armed {
      assert [] + FinishPlan(e.atEnd) == FinishPlan(e.atEnd);
      FinishIsKept(n, s, e.atEnd);
    } else {
      var message := WipeMessage(intent);
      var arm, armed := SetPlan(true, BOOT_RECOVERY, message), Next(s, SetMessage(BOOT_RECOVERY, message));
      WipeMessageWipes(intent);
      SetIsKept(n, s, true, BOOT_RECOVERY, message);
      ImageIsKept(n, armed, e.image);
      hide WipeMessage, WipeOn, Apply, AllKept, ImagePlan, FormatPlan, FinishPlan, IsUpdate, UpdateCommand;
      KeptAppend(n, s, arm, ImagePlan(e.image));
      WrittenIsKept(n, s, arm + ImagePlan(e.image), firmware.value, message, e);
    }
  }

  lemma WrittenIsKept(n: nat, s: State, start: seq<Change>, f: Firmware, message: Field, e: Events)
    requires AllKept(n, s, start) && Awaited(n, Apply(s, start)) && WipeOn(message)
    ensures var plan := if Reported(e.image) && e.instructed
        then start + [SetMessage(UpdateCommand(f), message)] + (if e.rebootReturns then FinishPlan(e.atEnd) else [])
        else start + FormatPlan(e.format) + FinishPlan(e.atEnd);
      AllKept(n, s, plan) <==> InstallKeeps(e)
  {
    var written := Apply(s, start);
    if Reported(e.image) && e.instructed {
      var instruct, sent := SetPlan(true, UpdateCommand(f), message), Next(written, SetMessage(UpdateCommand(f), message));
      CommandsDiffer(f);
      SetIsKept(n, written, true, UpdateCommand(f), message);
      KeptNothing(n, sent);
      FinishIsKept(n, sent, e.atEnd);
      hide WipeOn, Apply, AllKept, FinishPlan, IsUpdate, UpdateCommand;
      KeptAppend(n, s, start, instruct);
      KeptAppend(n, s, start + instruct, if e.rebootReturns then FinishPlan(e.atEnd) else []);
    } else {
      var cleaned := Apply(written, FormatPlan(e.format));
      FormatIsKept(n, written, e.format);
      if e.format.Done? { KeptOnceDone(n, cleaned, FinishPlan(e.atEnd)); } else { FinishIsKept(n, cleaned, e.atEnd); }
      hide WipeOn, Apply, AllKept, FormatPlan, FinishPlan, IsUpdate;
      KeptAppend(n, s, start, FormatPlan(e.format));
      KeptAppend(n, s, start + FormatPlan(e.format), FinishPlan(e.atEnd));
    }
  }

  // ---------------------------------------------------------------- one boot

  /** When a boot keeps a wipe that is due. */
  predicate Keeps(s: State, e: Events) {
    StartsRecovery(s, e) ==>
      // what get_args puts on record is a wipe
      && (e.saved ==> WipeOn(Pack(Found(s, e))))
      // it is carried out, or stays on record
      && ((Wipes(Found(s, e)) && e.format.Done?) ||
          ((Prompted(s, e) ==> !e.atPrompt.cleared) &&
           if Remembered(s, e).Some? && e.armed then InstallKeeps(e) else !e.atEnd.cleared))
  }

  lemma PromptIsKept(n: nat, s: State, done: State, e: Events)
    requires Awaited(n, done)
    ensures AllKept(n, done, PromptPlan(s, e)) <==> (Prompted(s, e) ==> !e.atPrompt.cleared)
    ensures AllKept(n, done, PromptPlan(s, e)) ==> Awaited(n, Apply(done, PromptPlan(s, e)))
  {
    FinishIsKept(n, done, e.atPrompt);
    KeptNothing(n, done);
  }

  lemma WorkIsKept(n: nat, s: State, args: seq<string>, e: Events)
    requires Awaited(n, s)
    ensures var work := WorkPlan(Parse(args), e).0;
      && AllKept(n, s, work)
      && if Wipes(args) && e.format.Done? then Apply(s, work).formatted > n else Awaited(n, Apply(s, work))
  {
    WorkIsFormat(args, e);
    FormatIsKept(n, s, e.format);
    KeptNothing(n, s);
  }

  /** What follows get_args. */
  lemma RestIsKept(n: nat, s: State, saved: State, e: Events)
    requires Awaited(n, saved)
    ensures var work, install := WorkPlan(Parse(Found(s, e)), e).0, InstallPlan(Remembered(s, e), Parse(Found(s, e)).intent, e);
      AllKept(n, saved, work + PromptPlan(s, e) + install) <==>
        ((Wipes(Found(s, e)) && e.format.Done?) ||
         ((Prompted(s, e) ==> !e.atPrompt.cleared) &&
          if Remembered(s, e).Some? && e.armed then InstallKeeps(e) else !e.atEnd.cleared))
  {
    var work, install := WorkPlan(Parse(Found(s, e)), e).0, InstallPlan(Remembered(s, e), Parse(Found(s, e)).intent, e);
    var prompt, done := PromptPlan(s, e), Apply(saved, work);
    FoundAreLines(s, e);
    IntentIsLine(Found(s, e));
    hide *;
    WorkIsKept(n, saved, Found(s, e), e);
    KeptAppend(n, saved, work, prompt);
    KeptAppend(n, saved, work + prompt, install);
    if done.formatted > n {
      KeptOnceDone(n, done, prompt);
      KeptOnceDone(n, Apply(done, prompt), install);
    } else {
      PromptIsKept(n, s, done, e);
      if AllKept(n, done, prompt) {
        InstallIsKept(n, Apply(done, prompt), Remembered(s, e), Parse(Found(s, e)).intent, e);
      }
    }
  }

  lemma RecoveryIsKept(s: State, e: Events)
    requires Due(s) && StartsRecovery(s, e)
    ensures AllKept(s.formatted, s, RecoveryPlan(s, e)) <==> Keeps(s, e)
  {
    var n, save, saved := s.formatted, SavePlan(s, e), Apply(s, SavePlan(s, e));
    var work, install := WorkPlan(Parse(Found(s, e)), e).0, InstallPlan(Remembered(s, e), Parse(Found(s, e)).intent, e);
    SetIsKept(n, s, e.saved, BOOT_RECOVERY, Pack(Found(s, e)));
    TwoHalves(s, e);
    assert FirstHalf(s, e) == save + work + PromptPlan(s, e);
    Regrouped(save, work, PromptPlan(s, e), install);
    hide WipeOn, Found, Apply, AllKept, WorkPlan, InstallPlan, PromptPlan, RecoveryPlan, FirstHalf,
      Prompted, Remembered, IsUpdate, Wipes, Parse;
    KeptAppend(n, s, save, work + PromptPlan(s, e) + install);
    if AllKept(n, s, save) { RestIsKept(n, s, saved, e); }
  }

  lemma Regrouped<T>(a: seq<T>, b: seq<T>, c: seq<T>, d: seq<T>)
    ensures a + b + c + d == a + (b + c + d)
  {
  }

  /** A boot keeps a wipe that is due, wherever it is cut short, if and only if this goes well. */
  lemma BootKeepsWipe(s: State, e: Events)
    requires Due(s)
    ensures AllKept(s.formatted, s, BootPlan(s, e)) <==> Keeps(s, e)
  {
    if StartsRecovery(s, e) {
      RecoveryIsKept(s, e);
    } else {
      NoUpdates();
      KeptOne(s.formatted, s, SetMessage(BOOT_RECOVERY, s.recovery));
    }
  }

  // ---------------------------------------------------------------- a series of boots

  ghost function KeptInBoot(formatted: nat): (State, Events) -> bool {
    (s: State, e: Events) => AllKept(formatted, s, BootPlan(s, e))
  }

  /** A wipe is kept at every point of every boot of a series. */
  ghost predicate AlwaysKept(s: State, es: seq<Events>) { Throughout(KeptInBoot(s.formatted), s, es) }

  function KeepsIfDue(formatted: nat): (State, Events) -> bool {
    (s: State, e: Events) => s.formatted > formatted || Keeps(s, e)
  }

  /** Every boot keeps it that finds it due. */
  ghost predicate AllKeep(s: State, es: seq<Events>) { Throughout(KeepsIfDue(s.formatted), s, es) }

  /** Over any series of boots, each cut short at any point, a wipe on record is carried out
      before it leaves the record, if and only if every boot keeps it. */
  lemma {:induction false} NoWipeIsLost(s: State, es: seq<Events>)
    requires Due(s)
    ensures AlwaysKept(s, es) <==> AllKeep(s, es)
    ensures AllKeep(s, es) ==> Boots(s, es).formatted > s.formatted || Due(Boots(s, es))
    ensures Boots(s, es).formatted >= s.formatted
  {
    if es != [] {
      var front, last := es[..|es|-1], es[|es|-1];
      var before := Boots(s, front);
      var plan := BootPlan(before, last);
      assert Boots(s, es) == Apply(before, Cut(plan, last.power));
      hide Due, Keeps, AllKept, Boots, BootPlan, Cut, Apply, Throughout;
      LastBoot(KeptInBoot(s.formatted), s, es);
      LastBoot(KeepsIfDue(s.formatted), s, es);
      NoWipeIsLost(s, front);
      FormattedGrows(before, Cut(plan, last.power));
      if before.formatted > s.formatted {
        KeptOnceDone(s.formatted, before, plan);
      } else if Due(before) {
        BootKeepsWipe(before, last);
        if AllKept(s.formatted, before, plan) { CutIsKept(s.formatted, before, plan, last.power); }
      }
    }
  }

  lemma CutIsKept(n: nat, s: State, plan: seq<Change>, power: nat)
    requires AllKept(n, s, plan)
    ensures Kept(n)(Apply(s, Cut(plan, power)))
  {
    AlwaysCut(Kept(n), s, plan, power);
  }
}
