/** The class `RISCVAssembler` itself: the register table its constructor
    builds, the label table `first_pass` fills in, and `assemble`, which
    reads both and returns the machine words. Each method is proved against
    the function of the `Passes` module that specifies it. */
module Assembler {
  import opened Results
  import opened Text
  import opened Registers
  import opened Dispatch
  import opened Passes

  class RiscvAssembler {
    /** `self.registers`: register name to register number. */
    var registers: map<string, nat>
    /** `self.labels`: label to the address of its instruction. */
    var labels: map<string, int>

    /** The table is the generic names `x0`..`x31`, then the ABI names over
        them, and the label table starts empty. */
    constructor ()
      ensures registers == Table() && labels == map[]
    {
      var table: map<string, nat> := map[];
      for i := 0 to RegisterCount
        invariant table == GenericNames(i)
      {
        GenericNamesStep(i);
        table := table[GenericName(i) := i];
      }
      registers := table + AbiNames;
      labels := map[];
    }

    /** `first_pass`: bind every label to the address of the next
        instruction. Labels already in the table stay unless redefined. */
    method FirstPass(lines: seq<string>)
      modifies this`labels
      ensures labels == Pass1(old(labels), Views(lines)).labels
      ensures registers == old(registers)
    {
      ghost var views := Views(lines);
      var pc := 0;
      for i := 0 to |lines|
        invariant Pass1(old(labels), views[..i]) == Scan(labels, pc)
      {
        ghost var before := Scan(labels, pc);
        var view := View(lines[i]);
        match view.defines {
          case Some(name) =>
            labels := labels[name := pc];
          case None =>
        }
        if view.text != [] {
          pc := pc + 4;
        }
        ViewsAt(lines, i);
        Pass1Line(old(labels), views, i, before, view, labels, pc);
      }
      assert views[..|lines|] == views;
    }

    /** `assemble`: encode every instruction line at its address with the
        current label table, or fail with the error of the first line that
        does not encode. The words are 32-bit values, one per instruction
        line. */
    method Assemble(lines: seq<string>) returns (res: Result<seq<int>>)
      ensures res == Pass2(Assembler(labels), Views(lines))
      ensures res.Ok? ==> |res.value| == Emitted(Views(lines))
      ensures res.Ok? ==> forall k :: 0 <= k < |res.value| ==> 0 <= res.value[k] < 0x1_0000_0000
    {
      ghost var views := Views(lines);
      var machine: seq<int> := [];
      var pc := 0;
      for i := 0 to |lines|
        invariant Pass2(Assembler(labels), views[..i]) == Ok(machine)
        invariant pc == 4 * |machine|
      {
        Pass2Next(Assembler(labels), views, i);
        ViewsAt(lines, i);
        var text := View(lines[i]).text;
        if text == [] {
          continue;
        }
        var parts := Tokens(text);
        var word := Encode(labels, pc, parts);
        if word.Err? {
          Pass2Abort(Assembler(labels), views, i + 1);
          return Err(word.error);
        }
        machine := machine + [word.value];
        pc := pc + 4;
      }
      assert views[..|lines|] == views;
      res := Ok(machine);
      forall k | 0 <= k < |machine|
        ensures 0 <= machine[k] < 0x1_0000_0000
      {
        Pass2Words(labels, Views(lines), k);
      }
    }
  }

  /** A fresh assembler, its first pass and its second pass over the same
      lines compute the whole program. */
  method AssembleLines(lines: seq<string>) returns (res: Result<seq<int>>)
    ensures res == Program(lines)
  {
    var assembler := new RiscvAssembler();
    assembler.FirstPass(lines);
    res := assembler.Assemble(lines);
  }
}
