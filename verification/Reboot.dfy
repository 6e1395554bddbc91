/** The logger object across a power cycle. */
module Reboot {
  import opened Bytes
  import Entry
  import opened LoggerSpec
  import opened RecoverySpec
  import opened Logger
  import opened Runs
  import opened RunRecovery

  /**
   * A logger that has been through any run from erased flash is flushed and, if that succeeds, a second one
   * boots on the same flash without saved parameters: it continues at the same offset with the same id.
   */
  method FlushAndReboot(logger: BlackboxLogger, buffer: array<Byte>, ghost batch: seq<Byte>, ghost lastId: nat,
                        ghost ops: seq<Op>)
    returns (err: Entry.Err, rebooted: BlackboxLogger)
    requires logger.Valid() && Startable(logger.geo, batch, lastId, ops)
    requires logger.State() == Reached(logger.geo, batch, lastId, ops).s
    requires buffer.Length == logger.geo.batch && buffer != logger.flash.memory
    modifies logger, logger.flash, logger.flash.memory, logger.batch
    ensures err == Entry.Ok ==>
              && rebooted.writeOffset == logger.writeOffset && rebooted.lastId == logger.lastId
              && rebooted.batchLen == 0 == logger.batchLen && rebooted.flash == logger.flash
  {
    hide Reached, Recover, FlushOp, Startable;
    ghost var s := logger.State();
    err := logger.Flush();
    rebooted := logger;
    if err == Entry.Ok {
      StartableParts(logger.geo, batch, lastId, ops);
      ExactRecovery(logger.geo, batch, lastId, ops);
      FlushEmpties(logger.geo, batch, lastId, ops);
      rebooted := new BlackboxLogger(logger.geo, logger.flash, buffer, NO_HINT);
    }
  }
}
