/** What the restart protocol takes for a complete image, in terms of the flash device: an
    outcome of write_update_for_bootloader follows from what happens to its operations. */
module UpdateOutcome {
  import opened Wrappers  // Option
  import opened Bytes
  import opened Flash
  import opened UpdateLayout
  import opened UpdatePower
  import opened UpdateImage
  import RestartProtocol
  import RestartSafety

  /** The outcome of a run that changed the device or did not. */
  function OutcomeOf(run: Option<Report>, changed: bool, fail: seq<byte>, e: nat): RestartProtocol.Outcome {
    if run.None? then if changed then RestartProtocol.Partial else RestartProtocol.NotStarted
    else if AllWell(run.value, fail, e) then RestartProtocol.Whole
    else RestartProtocol.Misreported
  }

  /** The outcome says what is reported and whether the layout is on the device; while only
      the power fails a report is never wrong, and there is one exactly if there is enough
      for the image. */
  lemma OutcomeIsReal(dev: Device, clock: nat, before: seq<Block>, h: Header, update: seq<byte>, busy: seq<byte>,
      fail: seq<byte>, r: int)
    requires dev.eraseSize > 0 && dev.Valid() && Leaves(dev, clock, before, h, update, busy, fail, r)
    ensures var chip := dev.Hardware();
      var run := UpdateRun(chip, clock, h, update, busy, fail);
      var image := OutcomeOf(run, dev.blocks != before, fail, dev.eraseSize);
      && (RestartProtocol.Reported(image) <==> r == 0)
      && (image.Whole? <==> r == 0 && Layout(dev.blocks, dev.eraseSize, run.value, update, busy, fail))
      && (image.NotStarted? <==> r != 0 && dev.blocks == before)
      && (PowerCutsOnly(chip) ==>
            !image.Misreported? && (image.Whole? <==> EnoughForUpdate(chip, clock, update, busy, fail)))
  {
    hide UpdateRun, Layout, AllWell, EnoughForUpdate;
    if dev.OnlyPowerCuts() { UpdateWorks(dev.Hardware(), clock, h, update, busy, fail); }
  }

  /** A report can be wrong. */
  lemma ReportCanBeWrong()
    ensures OutcomeOf(UpdateRun(FLAKY, 0, Blank([], 0, 0, 0, [], []), [], [], []), true, [], 64).Misreported?
  {
    MisplacedUpdate([]);
  }

  /** When recovery sends the bootloader to the cache partition, the update command goes with
      the promised layout if and only if it keeps its promise in the restart protocol. */
  lemma CommandHasLayout(s: RestartProtocol.State, e: RestartProtocol.Events, dev: Device, clock: nat, before: seq<Block>,
      h: Header, update: seq<byte>, busy: seq<byte>, fail: seq<byte>)
    requires dev.eraseSize > 0 && dev.Valid() && Leaves(dev, clock, before, h, update, busy, fail, 0)
    requires e.image == OutcomeOf(UpdateRun(dev.Hardware(), clock, h, update, busy, fail), dev.blocks != before, fail, dev.eraseSize)
    requires RestartSafety.Safe(s) && RestartSafety.StartsRecovery(s, e)
    requires RestartSafety.Remembered(s, e).Some? && e.armed && e.instructed
    ensures var done := RestartSafety.UpToCommand(s, RestartSafety.Remembered(s, e).value, e);
      var told := RestartProtocol.Apply(s, done);
      var run := UpdateRun(dev.Hardware(), clock, h, update, busy, fail);
      && done <= RestartProtocol.RecoveryPlan(s, e) && RestartProtocol.IsUpdate(told.command)
      && (RestartSafety.InstructedWell(told) <==> Layout(dev.blocks, dev.eraseSize, run.value, update, busy, fail))
      && (dev.OnlyPowerCuts() ==> RestartSafety.InstructedWell(told))
  {
    OutcomeIsReal(dev, clock, before, h, update, busy, fail, 0);
    hide UpdateRun, Layout, Leaves, RestartSafety.Safe, RestartSafety.Remembered, RestartSafety.UpToCommand,
      RestartSafety.InstructedWell, RestartProtocol.Apply, RestartProtocol.RecoveryPlan, RestartProtocol.IsUpdate;
    RestartSafety.CommandIsEarned(s, e);
  }
}
