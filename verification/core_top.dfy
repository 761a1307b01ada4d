/** The core as registers and sub-units updated in place at each clock edge
    (rtl/core/rv32_core.sv), proved equal to the next-state function. */
module CoreTop {
  import opened Rv32Types
  import opened Decoder
  import opened DivUnit
  import opened MulUnit
  import opened CsrFile
  import opened IfStage
  import opened Lsu
  import opened PipelineStages
  import opened Rv32Core

  class Core {
    const params: Params
    const fetch: Fetcher
    const multiplier: Multiplier
    const divider: Divider
    const lsu: LoadStoreUnit
    const csrs: CsrRegisters
    var ifId: IfId
    var idEx: IdEx
    var exMem: ExMem
    var memWb: MemWb
    var regs: Regs
    var trapDrain: bool

    function State(): CoreState
      reads this, fetch, multiplier, divider, lsu, csrs
    {
      CoreState(fetch.State(), ifId, idEx, multiplier.State(), divider.State(), exMem, lsu.State(), memWb,
                regs, csrs.Arch(), csrs.mcycle, trapDrain)
    }

    /** The register file starts with arbitrary words. */
    constructor (params: Params, regs: Regs)
      ensures this.params == params && this.regs == regs && !trapDrain
      ensures fresh(fetch) && fresh(multiplier) && fresh(divider) && fresh(lsu) && fresh(csrs)
      ensures ifId == IF_ID_BUBBLE && idEx == ID_EX_BUBBLE && exMem == EX_MEM_BUBBLE && memWb == MEM_WB_BUBBLE
    {
      this.params, this.regs, trapDrain := params, regs, false;
      fetch := new Fetcher(params.resetVector);
      multiplier := new Multiplier();
      divider := new Divider();
      lsu := new LoadStoreUnit();
      csrs := new CsrRegisters(params.trapVector);
      ifId, idEx, exMem, memWb := IF_ID_BUBBLE, ID_EX_BUBBLE, EX_MEM_BUBBLE, MEM_WB_BUBBLE;
    }

    /** One clock edge; the outputs are the two request channels. */
    method Tick(i: CoreIn) returns (imValid: bool, imAddr: Word, dmValid: bool, dmReq: MemReq)
      modifies this, fetch, multiplier, divider, lsu, csrs
      ensures State() == Next(old(State()), i, params)
      ensures imValid == IfReqValid(old(fetch.State()), FetchWires(old(State()), i))
      ensures imAddr == IfReqAddr(old(fetch.State()), FetchWires(old(State()), i))
      ensures dmValid == LsuReqValid(old(lsu.State()), LsuWires(old(State()), i, false))
      ensures dmReq == LsuReq(old(lsu.State()), LsuWires(old(State()), i, false))
    {
      hide ControlsNow, FetchWires, MulWires, DivWires, LsuWires, LsuRspReady, LsuReqValid, LsuReq, IfReqValid, IfReqAddr,
           IfNext, FetchOut, MulNext, DivNext, LsuNext, CsrNext, McycleNext, CsrResetArch, CommitPorts, RegsAfter, IdOut, ExOut,
           MemPacket, LsuNow, Refresh, Fetcher.State, Multiplier.State, Divider.State, LoadStoreUnit.State, CsrRegisters.Arch;
      var s := State();
      var c := ControlsNow(s, i);
      var id, ex, mem := IdOut(s, i), ExOut(s, i), MemPacket(s.m, LsuNow(s, i));
      dmValid, dmReq := LsuReqValid(s.lsu, LsuWires(s, i, false)), LsuReq(s.lsu, LsuWires(s, i, false));
      var fetched;
      fetched, imValid, imAddr := SubUnits(FetchWires(s, i), MulWires(s, i), DivWires(s, i),
                                           LsuWires(s, i, LsuRspReady(s, i)), i.rst, CommitPorts(s.w));
      Registers(i.rst, c, fetched, id, ex, mem);
    }

    method SubUnits(f: IfIn, m: MulIn, d: DivIn, l: LsuIn, rst: bool, commit: CsrPorts)
      returns (fetched: IfId, imValid: bool, imAddr: Word)
      modifies fetch, multiplier, divider, lsu, csrs
      ensures fetched == FetchOut(old(fetch.State()), f)
      ensures imValid == IfReqValid(old(fetch.State()), f) && imAddr == IfReqAddr(old(fetch.State()), f)
      ensures fetch.State() == IfNext(old(fetch.State()), f, params.resetVector)
      ensures multiplier.State() == MulNext(old(multiplier.State()), m)
      ensures divider.State() == DivNext(old(divider.State()), d)
      ensures lsu.State() == LsuNext(old(lsu.State()), l)
      ensures csrs.Arch() == if rst then CsrResetArch(params.trapVector) else CsrNext(old(csrs.Arch()), commit)
      ensures csrs.mcycle == if rst then 0 else McycleNext(old(csrs.mcycle), commit)
    {
      hide IfReqValid, IfReqAddr, IfNext, FetchOut, MulNext, DivNext, LsuNext, CsrNext, McycleNext, CsrResetArch,
           Fetcher.State, Multiplier.State, Divider.State, LoadStoreUnit.State, CsrRegisters.Arch;
      fetched, imValid, imAddr := fetch.Tick(f, params.resetVector);
      multiplier.Tick(m);
      divider.Tick(d);
      lsu.Tick(l);
      csrs.Tick(rst, params.trapVector, commit);
    }

    method Registers(rst: bool, c: Controls, fetched: IfId, id: IdEx, ex: ExMem, mem: MemWb)
      modifies `ifId, `idEx, `exMem, `memWb, `regs, `trapDrain
      ensures ifId == if rst || c.ifIdFlush then IF_ID_BUBBLE else if c.ifIdEnable then fetched else old(ifId)
      ensures idEx == if rst || c.idExFlush then ID_EX_BUBBLE
                      else if c.idExEnable then id else Refresh(old(idEx), old(memWb))
      ensures exMem == if rst || c.exMemFlush then EX_MEM_BUBBLE else if c.exMemEnable then ex else old(exMem)
      ensures memWb == if rst || c.memWbFlush then MEM_WB_BUBBLE else if c.memWbEnable then mem else old(memWb)
      ensures regs == RegsAfter(old(regs), old(memWb)) && trapDrain == (!rst && c.drainNext)
    {
      hide Refresh, RegsAfter;
      EdgeD(rst, c, fetched);
      EdgeE(rst, c, id, memWb);
      EdgeM(rst, c, ex);
      regs, trapDrain := RegsAfter(regs, memWb), !rst && c.drainNext;
      EdgeW(rst, c, mem);
    }

    // Each pipeline register: reset, then flush, then enable, then hold.

    method EdgeD(rst: bool, c: Controls, fetched: IfId)
      modifies `ifId
      ensures ifId == if rst || c.ifIdFlush then IF_ID_BUBBLE else if c.ifIdEnable then fetched else old(ifId)
    {
      if rst {
        ifId := IF_ID_BUBBLE;
      } else if c.ifIdFlush {
        ifId := IF_ID_BUBBLE;
      } else if c.ifIdEnable {
        ifId := fetched;
      }
    }

    /** A held packet re-reads an operand whose producer commits in this cycle. */
    method EdgeE(rst: bool, c: Controls, id: IdEx, commit: MemWb)
      modifies `idEx
      ensures idEx == if rst || c.idExFlush then ID_EX_BUBBLE else if c.idExEnable then id else Refresh(old(idEx), commit)
    {
      if rst || c.idExFlush {
        idEx := ID_EX_BUBBLE;
      } else if c.idExEnable {
        idEx := id;
      } else if idEx.valid && WbRegWrite(commit) {
        if idEx.ctrl.usesRs1 && idEx.rs1 == commit.rd {
          idEx := idEx.(rs1Value := commit.wbData);
        }
        if idEx.ctrl.usesRs2 && idEx.rs2 == commit.rd {
          idEx := idEx.(rs2Value := commit.wbData);
        }
      }
    }

    method EdgeM(rst: bool, c: Controls, ex: ExMem)
      modifies `exMem
      ensures exMem == if rst || c.exMemFlush then EX_MEM_BUBBLE else if c.exMemEnable then ex else old(exMem)
    {
      if rst || c.exMemFlush {
        exMem := EX_MEM_BUBBLE;
      } else if c.exMemEnable {
        exMem := ex;
      }
    }

    method EdgeW(rst: bool, c: Controls, mem: MemWb)
      modifies `memWb
      ensures memWb == if rst || c.memWbFlush then MEM_WB_BUBBLE else if c.memWbEnable then mem else old(memWb)
    {
      if rst || c.memWbFlush {
        memWb := MEM_WB_BUBBLE;
      } else if c.memWbEnable {
        memWb := mem;
      }
    }
  }
}
