/** The decoder as the source writes it: lookup tables filled from the instruction tables. */
module DecoderTables {
  import opened Words
  import opened Isa
  import opened Options
  import opened Decoding

  // ----- the instruction tables, in order -----

  const OPCODES_NUM := 11
  const CMDS_NUM := 58
  const UNDEFINED_CMD := 255

  function OpcodeNo(i: nat): Opcode
    requires i < OPCODES_NUM
  {
    if i == 0 then OpLoad else if i == 1 then OpStore else if i == 2 then OpBranch else if i == 3 then OpJalr
    else if i == 4 then OpJal else if i == 5 then OpImm else if i == 6 then OpReg else if i == 7 then OpSystem
    else if i == 8 then OpAuipc else if i == 9 then OpLui else OpMiscMem
  }

  function OpcodeIndex(o: Opcode): (i: nat)
    ensures i < OPCODES_NUM && OpcodeNo(i) == o
  {
    match o
    case OpLoad => 0
    case OpStore => 1
    case OpBranch => 2
    case OpJalr => 3
    case OpJal => 4
    case OpImm => 5
    case OpReg => 6
    case OpSystem => 7
    case OpAuipc => 8
    case OpLui => 9
    case OpMiscMem => 10
  }

  /** The rows of the command table, in order. */
  function CmdNo(i: nat): Cmd
    requires i < CMDS_NUM
  {
    match i
    case 0 => LUI case 1 => AUIPC case 2 => JAL case 3 => JALR case 4 => BEQ case 5 => BNE
    case 6 => BLT case 7 => BGE case 8 => BLTU case 9 => BGEU case 10 => LB case 11 => LH
    case 12 => LW case 13 => LBU case 14 => LHU case 15 => SB case 16 => SH case 17 => SW
    case 18 => ADDI case 19 => SLTI case 20 => SLTIU case 21 => XORI case 22 => ORI case 23 => ANDI
    case 24 => SLLI case 25 => SRLI case 26 => SRAI case 27 => ADD case 28 => SUB case 29 => SLL
    case 30 => SLT case 31 => SLTU case 32 => XOR case 33 => SRL case 34 => SRA case 35 => OR
    case 36 => AND case 37 => ECALL case 38 => EBREAK case 39 => URET case 40 => SRET case 41 => MRET
    case 42 => WFI case 43 => FENCE case 44 => CSRRW case 45 => CSRRS case 46 => CSRRC case 47 => CSRRWI
    case 48 => CSRRSI case 49 => CSRRCI case 50 => MUL case 51 => MULH case 52 => MULHSU case 53 => MULHU
    case 54 => DIV case 55 => DIVU case 56 => REM
    case _ => REMU
  }

  function Index(c: Cmd): (i: nat)
    ensures i < CMDS_NUM
  {
    match c
    case LUI => 0 case AUIPC => 1 case JAL => 2 case JALR => 3
    case BEQ => 4 case BNE => 5 case BLT => 6 case BGE => 7 case BLTU => 8 case BGEU => 9
    case LB => 10 case LH => 11 case LW => 12 case LBU => 13 case LHU => 14
    case SB => 15 case SH => 16 case SW => 17
    case ADDI => 18 case SLTI => 19 case SLTIU => 20 case XORI => 21 case ORI => 22 case ANDI => 23
    case SLLI => 24 case SRLI => 25 case SRAI => 26
    case ADD => 27 case SUB => 28 case SLL => 29 case SLT => 30 case SLTU => 31
    case XOR => 32 case SRL => 33 case SRA => 34 case OR => 35 case AND => 36
    case ECALL => 37 case EBREAK => 38 case URET => 39 case SRET => 40 case MRET => 41 case WFI => 42
    case FENCE => 43 case CSRRW => 44 case CSRRS => 45 case CSRRC => 46
    case CSRRWI => 47 case CSRRSI => 48 case CSRRCI => 49
    case MUL => 50 case MULH => 51 case MULHSU => 52 case MULHU => 53
    case DIV => 54 case DIVU => 55 case REM => 56 case REMU => 57
  }

  lemma IndexOfCmd(c: Cmd)
    ensures CmdNo(Index(c)) == c
  {
    hide CmdNo;
    var i := Index(c);
    if i < 15 {
      IndexOfFirst(c);
    } else if i < 30 {
      IndexOfSecond(c);
    } else if i < 44 {
      IndexOfThird(c);
    } else {
      IndexOfLast(c);
    }
  }

  lemma IndexOfFirst(c: Cmd)
    requires Index(c) < 15
    ensures CmdNo(Index(c)) == c
  {
  }

  lemma IndexOfSecond(c: Cmd)
    requires 15 <= Index(c) < 30
    ensures CmdNo(Index(c)) == c
  {
  }

  lemma IndexOfThird(c: Cmd)
    requires 30 <= Index(c) < 44
    ensures CmdNo(Index(c)) == c
  {
  }

  lemma IndexOfLast(c: Cmd)
    requires 44 <= Index(c)
    ensures CmdNo(Index(c)) == c
  {
  }

  lemma CmdOfIndex(i: nat)
    requires i < CMDS_NUM
    ensures Index(CmdNo(i)) == i
  {
  }

  // ----- what the tables hold -----

  /** Does the command belong to the row? Only opcode OP tells rows apart by `funct7`. */
  predicate InRow(c: Cmd, o: Opcode, f3: nat, f7: nat) {
    OpcodeOf(c) == o && Funct3Of(c) == f3 && (o == OpReg ==> Funct7Of(c) == f7)
  }

  /** The last of the first i commands in a row: a later command overwrites an earlier one. */
  function LastCmd(i: nat, o: Opcode, f3: nat, f7: nat): (r: Option<Cmd>)
    requires i <= CMDS_NUM
    ensures r.Some? ==> InRow(r.value, o, f3, f7)
  {
    if i == 0 then None
    else if InRow(CmdNo(i - 1), o, f3, f7) then Some(CmdNo(i - 1))
    else LastCmd(i - 1, o, f3, f7)
  }

  lemma {:induction false} LastIsLast(i: nat, o: Opcode, f3: nat, f7: nat, c: Cmd)
    requires i <= CMDS_NUM && Index(c) < i && InRow(c, o, f3, f7)
    ensures LastCmd(i, o, f3, f7).Some? && Index(LastCmd(i, o, f3, f7).value) >= Index(c)
  {
    hide CmdNo, Index, InRow;
    IndexOfCmd(c);
    CmdOfIndex(i - 1);
    if !InRow(CmdNo(i - 1), o, f3, f7) {
      LastIsLast(i - 1, o, f3, f7, c);
    }
  }

  /** The filled tables hold, for every row, the command the decoder is specified with. */
  lemma LastIsCmdAt(o: Opcode, f3: nat, f7: nat)
    ensures LastCmd(CMDS_NUM, o, f3, f7) == CmdAt(o, f3, f7)
  {
    hide CmdNo, Index, CmdAt, LastCmd, RowCmd, OpcodeOf, Funct3Of, Funct7Of;
    var r := LastCmd(CMDS_NUM, o, f3, f7);
    if r.Some? {
      var c := r.value;
      CmdRoundTrip(c);
      Funct7Ignored(o, f3, f7, Funct7Of(c));
      CmdAtRow(o, f3, f7);
      LastIsLast(CMDS_NUM, o, f3, f7, RowCmd(c));
      RowCmdIsLater(c);
    } else if CmdAt(o, f3, f7).Some? {
      CmdAtRow(o, f3, f7);
      LastIsLast(CMDS_NUM, o, f3, f7, CmdAt(o, f3, f7).value);
    }
  }

  lemma Funct7Ignored(o: Opcode, f3: nat, f7: nat, g7: nat)
    ensures o != OpReg || f7 == g7 ==> CmdAt(o, f3, f7) == CmdAt(o, f3, g7)
  {
  }

  lemma RowCmdIsLater(c: Cmd)
    ensures Index(c) >= Index(RowCmd(c)) ==> c == RowCmd(c)
  {
  }

  // ----- keys of the command table -----

  function Key(o: Opcode, f3: nat): (k: nat)
    requires f3 < 8
    ensures k < 256
  {
    f3 * 32 + CodeOf(o)
  }

  lemma KeyInjective(o: Opcode, f3: nat, p: Opcode, g3: nat)
    requires f3 < 8 && g3 < 8 && Key(o, f3) == Key(p, g3)
    ensures o == p && f3 == g3
  {
  }

  /** The entry of a row outside opcode OP: a command number, or undefined. */
  function EntryOf(r: Option<Cmd>): (e: nat)
    ensures e <= UNDEFINED_CMD
  {
    match r
    case None => UNDEFINED_CMD
    case Some(c) => Index(c)
  }

  /** The table after the first i commands, outside opcode OP. */
  ghost predicate PlainRows(cmds: seq<nat>, i: nat)
    requires |cmds| == 256 && i <= CMDS_NUM
  {
    forall o: Opcode, f3: nat :: f3 < 8 && o != OpReg ==> cmds[Key(o, f3)] == EntryOf(LastCmd(i, o, f3, 0))
  }

  /** The tables after the first i commands for opcode OP: each `funct3` has a table of its own. */
  ghost predicate RegRows(cmds: seq<nat>, tables: seq<seq<Option<Cmd>>>, i: nat)
    requires |cmds| == 256 && i <= CMDS_NUM
  {
    && (forall t :: 0 <= t < |tables| ==> |tables[t]| == 128)
    && (forall f3: nat :: f3 < 8 ==> RegRow(cmds, tables, i, f3))
    && OwnTables(cmds)
  }

  /** No two rows share a table. */
  ghost predicate OwnTables(cmds: seq<nat>)
    requires |cmds| == 256
  {
    forall f3: nat, g3: nat :: f3 < g3 < 8 ==>
      cmds[Key(OpReg, f3)] == UNDEFINED_CMD || cmds[Key(OpReg, f3)] != cmds[Key(OpReg, g3)]
  }

  ghost predicate RegRow(cmds: seq<nat>, tables: seq<seq<Option<Cmd>>>, i: nat, f3: nat)
    requires |cmds| == 256 && i <= CMDS_NUM && f3 < 8
  {
    var t := cmds[Key(OpReg, f3)];
    if t == UNDEFINED_CMD then forall f7: nat :: f7 < 128 ==> LastCmd(i, OpReg, f3, f7) == None
    else t < |tables| && |tables[t]| == 128 && forall f7: nat :: f7 < 128 ==> tables[t][f7] == LastCmd(i, OpReg, f3, f7)
  }

  lemma LastNext(i: nat, o: Opcode, f3: nat, f7: nat)
    requires i < CMDS_NUM
    ensures LastCmd(i + 1, o, f3, f7) == if InRow(CmdNo(i), o, f3, f7) then Some(CmdNo(i)) else LastCmd(i, o, f3, f7)
  {
  }

  lemma NextIn(i: nat, o: Opcode, f3: nat, f7: nat)
    requires i < CMDS_NUM && f3 < 8
    ensures LastCmd(i + 1, o, f3, f7) == if InRow(CmdNo(i), o, f3, f7) then Some(CmdNo(i)) else LastCmd(i, o, f3, f7)
    ensures Key(o, f3) == Key(OpcodeOf(CmdNo(i)), Funct3Of(CmdNo(i))) ==> o == OpcodeOf(CmdNo(i)) && f3 == Funct3Of(CmdNo(i))
  {
    hide CmdNo, OpcodeOf, Funct3Of, Key;
    LastNext(i, o, f3, f7);
    var c := CmdNo(i);
    if Key(o, f3) == Key(OpcodeOf(c), Funct3Of(c)) { KeyInjective(o, f3, OpcodeOf(c), Funct3Of(c)); }
  }

  /** A command outside opcode OP overwrites the entry of its row. */
  lemma PlainRowsNext(cmds: seq<nat>, i: nat)
    requires |cmds| == 256 && i < CMDS_NUM && PlainRows(cmds, i) && OpcodeOf(CmdNo(i)) != OpReg
    ensures PlainRows(cmds[Key(OpcodeOf(CmdNo(i)), Funct3Of(CmdNo(i))) := i], i + 1)
  {
    hide CmdNo, Index, OpcodeOf, Funct3Of, Funct7Of, CodeOf, LastCmd, Key;
    CmdOfIndex(i);
    forall o: Opcode, f3: nat | f3 < 8
      ensures LastCmd(i + 1, o, f3, 0) == if InRow(CmdNo(i), o, f3, 0) then Some(CmdNo(i)) else LastCmd(i, o, f3, 0)
      ensures Key(o, f3) == Key(OpcodeOf(CmdNo(i)), Funct3Of(CmdNo(i))) ==> o == OpcodeOf(CmdNo(i)) && f3 == Funct3Of(CmdNo(i))
    {
      NextIn(i, o, f3, 0);
    }
  }

  lemma PlainRowsKept(cmds: seq<nat>, i: nat, f: nat, e: nat)
    requires |cmds| == 256 && i <= CMDS_NUM && PlainRows(cmds, i) && f < 8
    ensures PlainRows(cmds[Key(OpReg, f) := e], i)
  {
    hide LastCmd, Key;
    forall o: Opcode, f3: nat | f3 < 8 && o != OpReg
      ensures Key(o, f3) != Key(OpReg, f)
    {
      if Key(o, f3) == Key(OpReg, f) { KeyInjective(o, f3, OpReg, f); }
    }
  }

  /** A command of opcode OP leaves the other rows as they are. */
  lemma PlainRowsSkip(cmds: seq<nat>, i: nat)
    requires |cmds| == 256 && i < CMDS_NUM && PlainRows(cmds, i) && OpcodeOf(CmdNo(i)) == OpReg
    ensures PlainRows(cmds, i + 1)
  {
  }

  lemma RegRowSkip(cmds: seq<nat>, tables: seq<seq<Option<Cmd>>>, i: nat, f3: nat)
    requires |cmds| == 256 && i < CMDS_NUM && f3 < 8 && RegRow(cmds, tables, i, f3) && OpcodeOf(CmdNo(i)) != OpReg
    ensures RegRow(cmds[Key(OpcodeOf(CmdNo(i)), Funct3Of(CmdNo(i))) := i], tables, i + 1, f3)
    ensures Key(OpReg, f3) != Key(OpcodeOf(CmdNo(i)), Funct3Of(CmdNo(i)))
  {
    hide CmdNo, OpcodeOf, Funct3Of, Funct7Of, LastCmd, Key;
    NextIn(i, OpReg, f3, 0);
    var n := i + 1;
    forall f7: nat
      ensures LastCmd(n, OpReg, f3, f7) == LastCmd(i, OpReg, f3, f7)
    {
      NextIn(i, OpReg, f3, f7);
    }
  }

  lemma RegRowsSkip(cmds: seq<nat>, tables: seq<seq<Option<Cmd>>>, i: nat)
    requires |cmds| == 256 && i < CMDS_NUM && RegRows(cmds, tables, i) && OpcodeOf(CmdNo(i)) != OpReg
    ensures RegRows(cmds[Key(OpcodeOf(CmdNo(i)), Funct3Of(CmdNo(i))) := i], tables, i + 1)
  {
    hide CmdNo, OpcodeOf, Funct3Of, Funct7Of, LastCmd, Key, RegRow;
    var n := i + 1;
    var next := cmds[Key(OpcodeOf(CmdNo(i)), Funct3Of(CmdNo(i))) := i];
    forall f3: nat | f3 < 8
      ensures RegRow(next, tables, n, f3)
    {
      RegRowSkip(cmds, tables, i, f3);
    }
    forall f3: nat, g3: nat | f3 < g3 < 8
      ensures next[Key(OpReg, f3)] == UNDEFINED_CMD || next[Key(OpReg, f3)] != next[Key(OpReg, g3)]
    {
      RegRowSkip(cmds, tables, i, f3);
      RegRowSkip(cmds, tables, i, g3);
    }
  }

  function Blank(): (s: seq<Option<Cmd>>)
    ensures |s| == 128 && forall f7 :: 0 <= f7 < 128 ==> s[f7] == None
  {
    seq(128, _ => None)
  }

  /** The first use of a `funct3` opens a table. */
  lemma OpenTable(cmds: seq<nat>, tables: seq<seq<Option<Cmd>>>, i: nat, f: nat)
    requires |cmds| == 256 && i <= CMDS_NUM && RegRows(cmds, tables, i) && f < 8
    requires |tables| < UNDEFINED_CMD && cmds[Key(OpReg, f)] == UNDEFINED_CMD
    ensures RegRows(cmds[Key(OpReg, f) := |tables|], tables + [Blank()], i)
  {
    hide LastCmd, Key, RegRow;
    var cmds', tables' := cmds[Key(OpReg, f) := |tables|], tables + [Blank()];
    forall f3: nat | f3 < 8
      ensures RegRow(cmds', tables', i, f3)
    {
      OpenRow(cmds, tables, i, f, f3);
    }
    forall f3: nat, g3: nat | f3 < g3 < 8
      ensures cmds'[Key(OpReg, f3)] == UNDEFINED_CMD || cmds'[Key(OpReg, f3)] != cmds'[Key(OpReg, g3)]
    {
      OpenRow(cmds, tables, i, f, f3);
      OpenRow(cmds, tables, i, f, g3);
    }
  }

  lemma OpenRow(cmds: seq<nat>, tables: seq<seq<Option<Cmd>>>, i: nat, f: nat, f3: nat)
    requires |cmds| == 256 && i <= CMDS_NUM && f < 8 && f3 < 8 && RegRow(cmds, tables, i, f) && RegRow(cmds, tables, i, f3)
    requires |tables| < UNDEFINED_CMD && cmds[Key(OpReg, f)] == UNDEFINED_CMD
    ensures var cmds' := cmds[Key(OpReg, f) := |tables|];
            && RegRow(cmds', tables + [Blank()], i, f3)
            && (f3 != f ==> cmds'[Key(OpReg, f3)] == cmds[Key(OpReg, f3)])
            && (cmds[Key(OpReg, f3)] != UNDEFINED_CMD ==> cmds[Key(OpReg, f3)] < |tables|)
  {
  }

  function Fill(tables: seq<seq<Option<Cmd>>>, t: nat, c: Cmd): (r: seq<seq<Option<Cmd>>>)
    requires t < |tables| && |tables[t]| == 128
    ensures |r| == |tables|
  {
    tables[t := tables[t][Funct7Of(c) := Some(c)]]
  }

  lemma FillRow(cmds: seq<nat>, tables: seq<seq<Option<Cmd>>>, i: nat, f3: nat)
    requires |cmds| == 256 && i < CMDS_NUM && f3 < 8 && RegRow(cmds, tables, i, f3) && OpcodeOf(CmdNo(i)) == OpReg
    requires var t := cmds[Key(OpReg, Funct3Of(CmdNo(i)))];
             && t != UNDEFINED_CMD && t < |tables| && |tables[t]| == 128
             && (f3 == Funct3Of(CmdNo(i)) || cmds[Key(OpReg, f3)] == UNDEFINED_CMD || cmds[Key(OpReg, f3)] != t)
    ensures RegRow(cmds, Fill(tables, cmds[Key(OpReg, Funct3Of(CmdNo(i)))], CmdNo(i)), i + 1, f3)
  {
    hide CmdNo, OpcodeOf, Funct3Of, Funct7Of, LastCmd, Key;
    var c, n := CmdNo(i), i + 1;
    forall f7: nat
      ensures LastCmd(n, OpReg, f3, f7) == if f3 == Funct3Of(c) && Funct7Of(c) == f7 then Some(c) else LastCmd(i, OpReg, f3, f7)
    {
      NextIn(i, OpReg, f3, f7);
    }
  }

  /** The command overwrites its entry in the table of its `funct3`. */
  lemma FillTable(cmds: seq<nat>, tables: seq<seq<Option<Cmd>>>, i: nat)
    requires |cmds| == 256 && i < CMDS_NUM && RegRows(cmds, tables, i) && OpcodeOf(CmdNo(i)) == OpReg
    requires cmds[Key(OpReg, Funct3Of(CmdNo(i)))] != UNDEFINED_CMD
    ensures var t := cmds[Key(OpReg, Funct3Of(CmdNo(i)))];
            t < |tables| && |tables[t]| == 128 && RegRows(cmds, Fill(tables, t, CmdNo(i)), i + 1)
  {
    hide CmdNo, OpcodeOf, Funct3Of, Funct7Of, LastCmd, Key, RegRow;
    var c, n := CmdNo(i), i + 1;
    var f := Funct3Of(c);
    var t := cmds[Key(OpReg, f)];
    RowTable(cmds, tables, i, f);
    var filled := Fill(tables, t, c);
    forall f3: nat | f3 < 8
      ensures RegRow(cmds, filled, n, f3)
    {
      assert f3 != f ==> cmds[Key(OpReg, f3)] == UNDEFINED_CMD || cmds[Key(OpReg, f3)] != t;
      FillRow(cmds, tables, i, f3);
    }
  }

  lemma RowTable(cmds: seq<nat>, tables: seq<seq<Option<Cmd>>>, i: nat, f3: nat)
    requires |cmds| == 256 && i <= CMDS_NUM && RegRows(cmds, tables, i) && f3 < 8
    ensures var t := cmds[Key(OpReg, f3)]; t != UNDEFINED_CMD ==> t < |tables| && |tables[t]| == 128
  {
    hide LastCmd, Key;
    assert RegRow(cmds, tables, i, f3);
  }

  lemma RowsEmpty(cmds: seq<nat>)
    requires |cmds| == 256 && forall k :: 0 <= k < 256 ==> cmds[k] == UNDEFINED_CMD
    ensures PlainRows(cmds, 0) && RegRows(cmds, [], 0)
  {
  }

  // ----- reading the filled tables -----

  /** The entry of a row outside opcode OP. */
  lemma PlainEntry(cmds: seq<nat>, o: Opcode, f3: nat)
    requires |cmds| == 256 && PlainRows(cmds, CMDS_NUM) && f3 < 8 && o != OpReg
    ensures var e, r := cmds[Key(o, f3)], CmdAt(o, f3, 0);
            if e == UNDEFINED_CMD then r == None else e < CMDS_NUM && r == Some(CmdNo(e))
  {
    hide CmdNo, Index, CmdAt, Key, LastCmd;
    LastIsCmdAt(o, f3, 0);
    assert cmds[Key(o, f3)] == EntryOf(LastCmd(CMDS_NUM, o, f3, 0));
    if CmdAt(o, f3, 0).Some? { IndexOfCmd(CmdAt(o, f3, 0).value); }
  }

  /** The entry of a row of opcode OP; every `funct3` of it has a table. */
  lemma RegEntry(cmds: seq<nat>, tables: seq<seq<Option<Cmd>>>, f3: nat, f7: nat)
    requires |cmds| == 256 && RegRows(cmds, tables, CMDS_NUM) && f3 < 8 && f7 < 128
    ensures var t := cmds[Key(OpReg, f3)];
            t < |tables| && |tables[t]| == 128 && tables[t][f7] == CmdAt(OpReg, f3, f7)
  {
    hide CmdNo, Index, CmdAt, Key, LastCmd;
    assert RegRow(cmds, tables, CMDS_NUM, f3);
    LastIsCmdAt(OpReg, f3, f7);
    LastIsCmdAt(OpReg, f3, 0);
    BaseRow(f3);
  }

  lemma BaseRow(f3: nat)
    requires f3 < 8
    ensures CmdAt(OpReg, f3, 0).Some?
  {
  }

  lemma OpcodeOfCode(code: nat, o: Opcode)
    requires OpcodeAt(code) == Some(o)
    ensures CodeOf(o) == code
  {
  }

  class Decoder {
    const opcToFmt: array<Option<Format>>
    const opcFunct3ToCmd: array<nat>
    var funct7ToCmd: seq<seq<Option<Cmd>>>

    ghost predicate Formats(i: nat)
      reads this, opcToFmt
    {
      && opcToFmt.Length == 32
      && forall o: Opcode :: opcToFmt[CodeOf(o)] == if OpcodeIndex(o) < i then Some(FormatOf(o)) else None
    }

    ghost predicate NoOthers()
      reads this, opcToFmt
    {
      opcToFmt.Length == 32 && forall code :: 0 <= code < 32 && OpcodeAt(code) == None ==> opcToFmt[code] == None
    }

    ghost predicate Valid()
      reads this, opcToFmt, opcFunct3ToCmd
    {
      && Formats(OPCODES_NUM) && NoOthers() && opcFunct3ToCmd.Length == 256
      && PlainRows(opcFunct3ToCmd[..], CMDS_NUM) && RegRows(opcFunct3ToCmd[..], funct7ToCmd, CMDS_NUM)
    }

    constructor ()
      ensures Valid() && fresh(opcToFmt) && fresh(opcFunct3ToCmd)
    {
      opcToFmt := new Option<Format>[32](_ => None);
      opcFunct3ToCmd := new nat[256](_ => UNDEFINED_CMD);
      funct7ToCmd := [];
      new;
      FillFormats();
      FillCmds();
    }

    method FillFormats()
      requires opcToFmt.Length == 32 && forall code :: 0 <= code < 32 ==> opcToFmt[code] == None
      modifies opcToFmt
      ensures Formats(OPCODES_NUM) && NoOthers()
    {
      for i := 0 to OPCODES_NUM
        invariant Formats(i) && NoOthers()
      {
        var desc := OpcodeNo(i);
        NextOpcode(i);
        opcToFmt[CodeOf(desc)] := Some(FormatOf(desc));
      }
    }

    method FillCmds()
      requires opcFunct3ToCmd.Length == 256 && forall k :: 0 <= k < 256 ==> opcFunct3ToCmd[k] == UNDEFINED_CMD
      requires funct7ToCmd == []
      modifies this, opcFunct3ToCmd
      ensures PlainRows(opcFunct3ToCmd[..], CMDS_NUM) && RegRows(opcFunct3ToCmd[..], funct7ToCmd, CMDS_NUM)
    {
      hide PlainRows, RegRows, CmdNo, OpcodeOf, Funct3Of, Key;
      RowsEmpty(opcFunct3ToCmd[..]);
      for i := 0 to CMDS_NUM
        invariant PlainRows(opcFunct3ToCmd[..], i) && RegRows(opcFunct3ToCmd[..], funct7ToCmd, i) && |funct7ToCmd| <= i
      {
        var desc := CmdNo(i);
        var opcFunct3 := Key(OpcodeOf(desc), Funct3Of(desc));
        if OpcodeOf(desc) == OpReg {
          AddRegCmd(i);
        } else {
          PlainRowsNext(opcFunct3ToCmd[..], i);
          RegRowsSkip(opcFunct3ToCmd[..], funct7ToCmd, i);
          opcFunct3ToCmd[opcFunct3] := i;
        }
      }
    }

    /** A command that `funct7` tells from others. */
    method AddRegCmd(i: nat)
      requires opcFunct3ToCmd.Length == 256 && i < CMDS_NUM && OpcodeOf(CmdNo(i)) == OpReg && |funct7ToCmd| <= i
      requires PlainRows(opcFunct3ToCmd[..], i) && RegRows(opcFunct3ToCmd[..], funct7ToCmd, i)
      modifies this, opcFunct3ToCmd
      ensures PlainRows(opcFunct3ToCmd[..], i + 1) && RegRows(opcFunct3ToCmd[..], funct7ToCmd, i + 1)
      ensures |funct7ToCmd| <= i + 1
    {
      hide PlainRows, RegRows, CmdNo, OpcodeOf, Funct3Of, Key, Fill;
      var desc := CmdNo(i);
      var opcFunct3 := Key(OpReg, Funct3Of(desc));
      if opcFunct3ToCmd[opcFunct3] == UNDEFINED_CMD {
        OpenTable(opcFunct3ToCmd[..], funct7ToCmd, i, Funct3Of(desc));
        PlainRowsKept(opcFunct3ToCmd[..], i, Funct3Of(desc), |funct7ToCmd|);
        opcFunct3ToCmd[opcFunct3] := |funct7ToCmd|;
        funct7ToCmd := funct7ToCmd + [Blank()];
      }
      FillTable(opcFunct3ToCmd[..], funct7ToCmd, i);
      PlainRowsSkip(opcFunct3ToCmd[..], i);
      funct7ToCmd := Fill(funct7ToCmd, opcFunct3ToCmd[opcFunct3], desc);
    }

    method GetCmd(opcode: nat, funct3: nat, ghost o: Opcode) returns (r: Option<Cmd>)
      requires Valid() && funct3 < 8 && OpcodeAt(opcode) == Some(o) && o != OpReg
      ensures r == CmdAt(o, funct3, 0)
    {
      hide PlainRows, RegRows, CmdAt, CmdNo;
      OpcodeOfCode(opcode, o);
      PlainEntry(opcFunct3ToCmd[..], o, funct3);
      var cmd := opcFunct3ToCmd[funct3 * 32 + opcode];
      if cmd == UNDEFINED_CMD {
        return None;
      }
      return Some(CmdNo(cmd));
    }

    method GetCmdByFunct7(opcode: nat, funct3: nat, funct7: nat) returns (r: Option<Cmd>)
      requires Valid() && funct3 < 8 && funct7 < 128 && OpcodeAt(opcode) == Some(OpReg)
      ensures r == CmdAt(OpReg, funct3, funct7)
    {
      hide PlainRows, RegRows, CmdAt;
      OpcodeOfCode(opcode, OpReg);
      RegEntry(opcFunct3ToCmd[..], funct7ToCmd, funct3, funct7);
      r := funct7ToCmd[opcFunct3ToCmd[funct3 * 32 + opcode]][funct7];
    }

    /** `decode`: nothing stands for the exceptions. */
    method Decode(command: Word) returns (r: Option<Inst>)
      requires Valid()
      ensures r == Decoding.Decode(command)
    {
      hide CmdAt, DecodeFields, Split, PlainRows, RegRows;
      var f := Split(command);
      if f.low != 3 {
        return None;
      }
      var format := opcToFmt[f.op];
      if format == None {
        return None;
      }
      ghost var o := OpcodeAt(f.op).value;
      var c;
      if format == Some(FormatR) {
        c := GetCmdByFunct7(f.op, f.f3, f.f7);
      } else if format == Some(FormatU) || format == Some(FormatJ) {
        c := GetCmd(f.op, 0, o);
      } else {
        c := GetCmd(f.op, f.f3, o);
      }
      if c == None {
        return None;
      }
      return DecodeFields(c.value, f);
    }
  }

  lemma NextOpcode(i: nat)
    requires i < OPCODES_NUM
    ensures OpcodeIndex(OpcodeNo(i)) == i
    ensures forall o: Opcode :: CodeOf(o) == CodeOf(OpcodeNo(i)) ==> o == OpcodeNo(i)
  {
  }
}
