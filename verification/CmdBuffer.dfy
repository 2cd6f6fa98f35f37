/** The handlers of the MPT target driver that update a command buffer's flag word in place. */
module CmdBuffer {
  import opened IoState

  class CmdBuffer {
    const scsi: bool
    const sas: bool
    var exiting: bool
    var io: Flags

    constructor (scsi: bool, sas: bool)
      ensures this.scsi == scsi && this.sas == sas && !exiting && io == {}
    {
      this.scsi, this.sas := scsi, sas;
      exiting, io := false, {};
    }

    function Conditions(): Adapter
      reads this`exiting
    {
      Adapter(exiting, sas, scsi)
    }

    method CmdBufPost()
      modifies this`io
      ensures io == Post(Conditions(), old(io))
      ensures Posted in io && io - {HighPriority, Posted} == old(io) - {HighPriority, Posted}
      ensures HighPriority in io <==> HighPriority in old(io) && (exiting || sas)
    {
      if exiting || sas {
        io := io + {Posted};
        return;
      }
      io := io - {HighPriority};
      io := io + {Posted};
    }

    method RepostIfIdle()
      modifies this`io
      ensures io == Repost(Conditions(), old(io))
    {
      if io - {HighPriority} == {AutoRepost} {
        io := {Posted};
      } else if io - {HighPriority} == {} {
        CmdBufPost();
      }
    }

    method TargetCleanup()
      modifies this`io
      ensures io == Cleanup(Conditions(), old(io))
      ensures Aborted !in io && io !! RECOVERY
      ensures io !! {DataSent, StatusSent, StatusDeferred, Incomplete}
    {
      if DataSent in io || StatusSent in io {
        io := io - {DataSent};
        io := io - {StatusSent};
      }
      if StatusDeferred in io {
        io := io - {StatusDeferred};
      }
      io := io - {ReissueRequest};
      io := io - {AdjustOffset};
      io := io - {ConvertTaToTss};
      io := io - {RedoCommand};
      io := io - {RequestAborted};
      io := io - {Incomplete};
      io := io - {Aborted};
      io := io - {Posted};
      assert io == old(io) - RECOVERY - {DataSent, StatusSent, StatusDeferred, Incomplete, Aborted, Posted};
      CleanupKeeps(Conditions(), old(io));
      RepostIfIdle();
    }

    method SendTgtData(autoStatus: bool)
      modifies this`io
      ensures io == SendData(old(io), autoStatus)
      ensures Upholds(old(io), io, {})
    {
      if HighPriority in io && autoStatus {
        io := io + {AutoRepost};
      }
      io := io + {DataSent};
      if autoStatus {
        io := io + {StatusSent};
      }
    }

    method SendTargetStatus(autoGood: bool, sense: bool)
      modifies this`io
      ensures io == SendStatus(Conditions(), old(io), autoGood, sense)
      ensures Upholds(old(io), io, {})
    {
      if exiting {
        io := io - {AutoRepost};
      }
      if HighPriority in io {
        io := io + {AutoRepost};
      }
      if !autoGood && scsi && sense && HighPriority !in io {
        io := io - {AutoRepost};
      }
      if DataSent in io {
        io := io + {StatusDeferred};
        return;
      }
      io := io + {StatusSent};
    }

    method TgtCommand(local: bool)
      modifies this`io
      ensures io == NewCommand(old(io), local)
    {
      if local {
        SendTgtData(true);
      }
    }

    method Reply(at: Found)
      modifies this`io
      ensures io == TgtReply(Conditions(), old(io), at)
      ensures Upholds(old(io), io, {})
    {
      TgtReplyKeeps(Conditions(), io, at);
      if !at.hasCmd {
        io := io - {Posted};
        TgtCommand(at.local);
      } else if at.needData {
        io := io - {DataSent};
      } else if StatusSent in io {
        io := io - {StatusSent};
        if DataSent in io {
          io := io - {DataSent};
        }
        assert io == old(io) - {StatusSent, DataSent};
        RepostIfIdle();
      } else if DataSent in io {
        io := io - {DataSent};
        if StatusDeferred in io {
          io := io - {StatusDeferred};
          io := io + {StatusSent};
        }
      }
    }

    method Error(kind: ErrorKind, at: Found) returns (acts: set<Action>)
      modifies this`io
      ensures Out(io, acts) == TargetError(Conditions(), old(io), kind, at)
      ensures Upholds(old(io), io, acts)
    {
      TargetErrorKeeps(Conditions(), io, kind, at);
      acts := {Cleaned};
      if kind.PriorityIo? {
        io := io + {AutoRepost};
        TargetCleanup();
        io := {HighPriority};
        SendTargetStatus(false, true);
        return;
      }
      if kind.StillActive? {
        io := io + {AutoRepost};
        TargetCleanup();
        io := {};
        SendTargetStatus(false, true);
        return;
      }
      if scsi && kind.StatusDataNotSent? {
        if AutoRepost in io || StatusSent in io {
          Reply(at);
          acts := {};
          return;
        }
      }
      io := io - {AutoRepost};
      TargetCleanup();
    }

    method ReplyError(kind: ErrorKind, at: Found) returns (acts: set<Action>)
      modifies this`io
      ensures Out(io, acts) == IoState.ReplyError(Conditions(), old(io), kind, at)
      ensures Upholds(old(io), io, acts)
    {
      hide SendStatus, TargetError, NewCommand;
      StepKeeps(Conditions(), io, ErrorReply(kind, at));
      if kind.PriorityIo? {
        io := io + {HighPriority};
      }
      ghost var io0 := io;
      if RequestAborted in io {
        io := io - {RequestAborted};
        if ReissueRequest in io {
          io := io - {ReissueRequest};
          acts := {};
          if AdjustOffset in io {
            io := io - {AdjustOffset};
            acts := {Adjusted};
          }
          assert io == io0 - {RequestAborted, ReissueRequest, AdjustOffset};
          if ConvertTaToTss in io {
            io := io - {ConvertTaToTss};
            io := io - {DataSent};
            io := io - {StatusSent};
            assert io == io0 - {RequestAborted, ReissueRequest, AdjustOffset} - {ConvertTaToTss, DataSent, StatusSent};
            SendTargetStatus(true, false);
            return acts + {Converted};
          }
          if RedoCommand in io {
            io := io - {RedoCommand};
            io := io - {DataSent};
            io := io - {StatusSent};
            assert io == io0 - {RequestAborted, ReissueRequest, AdjustOffset} - {RedoCommand, DataSent, StatusSent};
            TgtCommand(at.local);
            return acts + {Redone};
          }
          return acts + {Reissued};
        }
      }
      assert io == io0 - {RequestAborted};
      acts := Error(kind, at);
    }

    method ReplyHighPriority(reason: PriorityReason, at: Found) returns (acts: set<Action>)
      modifies this`io
      ensures Out(io, acts) == HighPriorityReply(Conditions(), old(io), reason, at)
      ensures Upholds(old(io), io, acts)
    {
      hide SendStatus, TargetError, TgtReply;
      StepKeeps(Conditions(), io, PriorityReply(reason, at));
      acts := {};
      io := io + {HighPriority};
      match reason {
        case NoDisconnect | TaskManagement => Reply(at);
        case TargetBusy =>
          io := io - {Posted};
          SendTargetStatus(false, false);
        case OtherReason => acts := Error(PriorityIo, at);
      }
    }

    method TargetModeAbortReply(at: Found) returns (acts: set<Action>)
      modifies this`io
      ensures Out(io, acts) == AbortReply(Conditions(), old(io), at)
      ensures Upholds(old(io), io, acts)
    {
      hide TargetError;
      StepKeeps(Conditions(), io, AbortDone(at));
      acts := {};
      if Aborted in io && DataSent !in io && StatusSent !in io {
        acts := Error(Gone, at);
      }
      ghost var io1 := io;
      if RequestAborted in io {
        io := io - {RequestAborted};
        io := io - {ReissueRequest};
        io := io - {AdjustOffset};
        io := io - {ConvertTaToTss};
        io := io - {RedoCommand};
        assert io == io1 - RECOVERY;
      }
    }

    method AbtsProcess()
      modifies this`io
      ensures io == Abts(old(io))
      ensures Upholds(old(io), io, {})
      ensures Posted !in old(io) && AbortWins(old(io)) ==> Aborted in io && io !! RECOVERY
      ensures Posted in old(io) || Aborted in old(io) ==> io == old(io)
      ensures forall f :: f != Aborted && f !in RECOVERY ==> (f in io <==> f in old(io))
    {
      if Aborted in io {
        return;
      }
      if Posted in io {
        return;
      }
      io := io - {RequestAborted};
      io := io - {ReissueRequest};
      io := io - {AdjustOffset};
      io := io - {ConvertTaToTss};
      io := io - {RedoCommand};
      assert io == old(io) - RECOVERY;
      io := io + {Aborted};
    }

    /** `accepted` tells how the SRR is answered. */
    method SrrProcess(s: Srr) returns (accepted: bool)
      modifies this`io
      ensures io == IoState.SrrProcess(old(io), s)
      ensures Upholds(old(io), io, {})
      ensures Aborted in old(io) ==> io == old(io)
      ensures accepted <==> Aborted in old(io) || (Posted !in old(io) && ReissueRequest in io)
      ensures Aborted !in old(io) && Posted !in old(io) ==>
                && (accepted <==> ReissueRequest in old(io) || !RecoveryFor(old(io), s).Rejected?)
                && (RecoveryFor(old(io), s).Rejected? ==> io == old(io))
    {
      if Aborted in io {
        return true;
      }
      if Posted in io {
        return false;
      }
      var needAbort := false;
      if DataSent in io || StatusSent in io {
        if DataSent in io {
          if s.rctl == 1 || s.rctl == 5 {
            if s.offset < s.relOff && s.offset % BLOCK_SIZE == 0 {
              io := io + {Incomplete};
              io := io + {RedoCommand};
              io := io + {ReissueRequest};
              needAbort := true;
            }
            if s.offset >= s.relOff && s.offset <= s.relOff + s.len {
              if s.offset != s.relOff {
                if s.offset != s.relOff + s.len {
                  io := io + {AdjustOffset};
                } else {
                  io := io + {ConvertTaToTss};
                }
              }
              io := io + {ReissueRequest};
              needAbort := true;
            }
          } else if s.rctl == 7 {
            if StatusSent in io {
              io := io + {ConvertTaToTss};
              io := io + {ReissueRequest};
              needAbort := true;
            }
            if StatusDeferred in io {
              io := io + {ReissueRequest};
              needAbort := true;
            }
          }
        } else if s.rctl == 7 {
          io := io + {ReissueRequest};
          needAbort := true;
        }
        if needAbort {
          io := io + {RequestAborted};
        }
      }
      accepted := ReissueRequest in io;
    }

    method XmitResponse(data: bool, good: bool, sense: bool)
      modifies this`io
      ensures io == Xmit(Conditions(), old(io), data, good, sense)
      ensures Upholds(old(io), io, {})
    {
      if data {
        SendTgtData(good);
        if good {
          return;
        }
      }
      io := io + {AutoRepost};
      SendTargetStatus(good, sense);
    }
  }
}
