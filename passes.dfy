/** The two passes over the source lines. Both passes look at a line the
    same way, through its `View`: the label it defines, if any, and the
    instruction text left once the comment and the label are gone. `Pass1`
    is what `first_pass` computes, `Pass2` what `assemble` returns; `Pass2`
    takes the per-instruction encoder as a parameter, so what is proved here
    about addresses and positions holds whatever the encoder does. */
module Passes {
  import opened Results
  import opened Text
  import opened Formats
  import opened Dispatch

  /** How both passes see one line. */
  datatype LineView = LineView(defines: Option<string>, text: string)

  /** `re.sub(r'#.*', '', line).strip()` */
  function Clean(line: string): string
  {
    Trim(StripComment(line))
  }

  /** A cleaned line with a colon defines the stripped text before its
      first colon, and its instruction is the stripped text after it;
      otherwise the whole cleaned line is the instruction. An empty text
      means the line holds no instruction. */
  function View(line: string): LineView
  {
    var clean := Clean(line);
    if ':' in clean then LineView(Some(Trim(BeforeColon(clean))), Trim(AfterColon(clean)))
    else LineView(None, clean)
  }

  /** What a view holds: no comment, no surrounding whitespace around the
      instruction, and a label without colon; a line without label has no
      colon at all. */
  lemma ViewShape(line: string)
    ensures var v := View(line);
      && '#' !in v.text
      && (v.text == [] || (!IsSpace(v.text[0]) && !IsSpace(v.text[|v.text| - 1])))
      && (v.defines.Some? ==> ':' !in v.defines.value && '#' !in v.defines.value)
      && (v.defines.None? ==> ':' !in v.text)
  {
    var clean := Clean(line);
    TrimKeeps(StripComment(line), '#');
    if ':' in clean {
      var before, after := BeforeColon(clean), AfterColon(clean);
      TrimKeeps(before, ':');
      TrimKeeps(before, '#');
      TrimKeeps(after, '#');
    }
  }

  /** The views of all the lines, in order. */
  function Views(lines: seq<string>): (views: seq<LineView>)
    ensures |views| == |lines|
  {
    seq(|lines|, i requires 0 <= i < |lines| => View(lines[i]))
  }

  /** Line `i` is seen through its own view. */
  lemma ViewsAt(lines: seq<string>, i: nat)
    requires i < |lines|
    ensures Views(lines)[i] == View(lines[i])
  {
  }

  predicate HasInstruction(view: LineView)
  {
    view.text != []
  }

  /** How many of the lines hold an instruction. */
  function Emitted(views: seq<LineView>): nat
  {
    if views == [] then 0
    else Emitted(views[..|views| - 1]) + if HasInstruction(views[|views| - 1]) then 1 else 0
  }

  /** The state `first_pass` carries from line to line. */
  datatype Scan = Scan(labels: map<string, int>, pc: int)

  /** `first_pass` over the lines, starting from the label table `labels`: a
      defining line binds its label to the current `pc` (a later definition
      overwrites an earlier one), and every line that holds an instruction
      advances `pc` by 4. */
  function Pass1(labels: map<string, int>, views: seq<LineView>): (scan: Scan)
    ensures scan.pc == 4 * Emitted(views)
  {
    if views == [] then Scan(labels, 0)
    else Step(Pass1(labels, views[..|views| - 1]), views[|views| - 1])
  }

  /** What `first_pass` does with one line. */
  function Step(before: Scan, view: LineView): Scan
  {
    var table := match view.defines
      case Some(name) => before.labels[name := before.pc]
      case None => before.labels;
    Scan(table, if HasInstruction(view) then before.pc + 4 else before.pc)
  }

  /** One line adds at most its own label to the table, leaves every other
      label's address alone, and moves `pc` on by 4 exactly when it holds an
      instruction. */
  lemma StepKeeps(before: Scan, view: LineView)
    ensures var after := Step(before, view);
      && after.pc - before.pc == (if HasInstruction(view) then 4 else 0)
      && (forall name :: name in after.labels <==> name in before.labels || view.defines == Some(name))
      && (forall name :: name in before.labels && view.defines != Some(name) ==> after.labels[name] == before.labels[name])
  {
  }

  /** A line that defines `name` binds it to the current address. */
  lemma StepDefines(before: Scan, view: LineView, name: string)
    requires view.defines == Some(name)
    ensures Step(before, view).labels == before.labels[name := before.pc]
  {
  }

  /** An encoder: the word for an instruction text at an address, or why
      there is none. */
  type Encoder = (int, string) -> Result<int>

  /** `assemble` over the lines: each instruction text is encoded at address
      `4 * |machine|` and appended; the first one that fails aborts the
      whole pass. */
  function Pass2(encode: Encoder, views: seq<LineView>): (res: Result<seq<int>>)
    ensures res.Ok? ==> |res.value| == Emitted(views)
  {
    if views == [] then Ok([])
    else
      var machine :- Pass2(encode, views[..|views| - 1]);
      var text := views[|views| - 1].text;
      if text == [] then Ok(machine)
      else
        var word :- encode(4 * |machine|, text);
        Ok(machine + [word])
  }

  /** The encoder of `assemble`: split the text into tokens, then dispatch on
      the mnemonic with the label table of the first pass. */
  function Assembler(labels: map<string, int>): Encoder
  {
    (pc: int, text: string) => Encode(labels, pc, Tokens(text))
  }

  /** The whole program: the labels of the first pass, then the second.
      Both passes advance on the same lines: four times the number of words
      is where the first pass left `pc`. */
  function Program(lines: seq<string>): (res: Result<seq<int>>)
    ensures res.Ok? ==> 4 * |res.value| == Pass1(map[], Views(lines)).pc
  {
    var views := Views(lines);
    Pass2(Assembler(Pass1(map[], views).labels), views)
  }

  /** The address of the instruction on line `i`, as both passes count it. */
  function AddressOf(views: seq<LineView>, i: nat): int
    requires i <= |views|
  {
    4 * Emitted(views[..i])
  }

  /** What the encoder makes of line `i` at its address. */
  function LineWord(encode: Encoder, views: seq<LineView>, i: nat): Result<int>
    requires i < |views|
  {
    encode(AddressOf(views, i), views[i].text)
  }

  lemma Prefix(views: seq<LineView>, i: nat)
    requires i < |views|
    ensures views[..|views| - 1][..i] == views[..i]
  {
  }

  // ---- the first pass ----

  /** The first pass over one more line. */
  lemma Pass1Next(labels: map<string, int>, views: seq<LineView>, i: nat)
    requires i < |views|
    ensures Pass1(labels, views[..i + 1]) == Step(Pass1(labels, views[..i]), views[i])
  {
    assert views[..i + 1][..i] == views[..i];
  }


  /** The first pass over line `i`, as `first_pass` updates its table and
      `pc`: `table` and `pc` are the state after that line. */
  lemma Pass1Line(labels: map<string, int>, views: seq<LineView>, i: nat, before: Scan, view: LineView, table: map<string, int>, pc: int)
    requires i < |views| && views[i] == view && Pass1(labels, views[..i]) == before
    requires view.defines.Some? ==> table == before.labels[view.defines.value := before.pc]
    requires view.defines.None? ==> table == before.labels
    requires pc == if view.text != [] then before.pc + 4 else before.pc
    ensures Pass1(labels, views[..i + 1]) == Scan(table, pc)
  {
    Pass1Next(labels, views, i);
  }

  /** A name is in the table after the first pass exactly when it was there
      before or some line defines it. */
  lemma {:induction false} Pass1Defines(labels: map<string, int>, views: seq<LineView>, name: string)
    ensures name in Pass1(labels, views).labels <==>
      name in labels || exists j :: 0 <= j < |views| && views[j].defines == Some(name)
    decreases |views|
  {
    if views != [] {
      var n := |views| - 1;
      Pass1Defines(labels, views[..n], name);
      if exists j :: 0 <= j < n && views[..n][j].defines == Some(name) {
        var j :| 0 <= j < n && views[..n][j].defines == Some(name);
        assert views[j] == views[..n][j];
      }
      if exists j :: 0 <= j < |views| && views[j].defines == Some(name) {
        var j :| 0 <= j < |views| && views[j].defines == Some(name);
        if j < n {
          assert views[..n][j] == views[j];
        }
      }
    }
  }

  /** A label's value is the address of its last defining line: four times
      the number of instruction lines before it. */
  lemma {:induction false} Pass1Address(labels: map<string, int>, views: seq<LineView>, name: string, j: nat)
    requires j < |views| && views[j].defines == Some(name)
    requires forall k :: j < k < |views| ==> views[k].defines != Some(name)
    ensures name in Pass1(labels, views).labels
    ensures Pass1(labels, views).labels[name] == AddressOf(views, j)
    decreases |views|
  {
    var n := |views| - 1;
    if j == n {
    } else {
      forall k | j < k < n
        ensures views[..n][k].defines != Some(name)
      {
        assert views[..n][k] == views[k];
      }
      Prefix(views, j);
      Pass1Address(labels, views[..n], name, j);
    }
  }

  /** Every address in the table is a multiple of four, if it was so before. */
  lemma {:induction false} Pass1Aligned(labels: map<string, int>, views: seq<LineView>)
    requires forall name :: name in labels ==> labels[name] % 4 == 0
    ensures forall name :: name in Pass1(labels, views).labels ==> Pass1(labels, views).labels[name] % 4 == 0
    decreases |views|
  {
    if views != [] {
      var n := |views| - 1;
      Pass1Aligned(labels, views[..n]);
    }
  }

  // ---- the second pass ----

  /** The second pass over one more line: it fails if it had failed, skips
      a line without instruction, and otherwise appends the line's word or
      fails with the line's error. */
  lemma Pass2Next(encode: Encoder, views: seq<LineView>, i: nat)
    requires i < |views|
    ensures Pass2(encode, views[..i + 1]) ==
      match Pass2(encode, views[..i])
      case Err(e) => Err(e)
      case Ok(machine) =>
        if views[i].text == [] then Ok(machine)
        else match encode(4 * |machine|, views[i].text)
          case Err(e) => Err(e)
          case Ok(word) => Ok(machine + [word])
  {
    assert views[..i + 1][..i] == views[..i];
  }


  /** Each line that holds an instruction is encoded at its own address, and
      its word sits at the index of that address in the output. */
  lemma {:induction false} Pass2Word(encode: Encoder, views: seq<LineView>, i: nat)
    requires Pass2(encode, views).Ok? && i < |views| && HasInstruction(views[i])
    ensures Emitted(views[..i]) < |Pass2(encode, views).value|
    ensures LineWord(encode, views, i) == Ok(Pass2(encode, views).value[Emitted(views[..i])])
    decreases |views|
  {
    var n := |views| - 1;
    if i < n {
      Prefix(views, i);
      Pass2Word(encode, views[..n], i);
    }
  }

  /** The second pass succeeds exactly when every instruction line encodes
      at its address. */
  lemma {:induction false} Pass2Succeeds(encode: Encoder, views: seq<LineView>)
    ensures Pass2(encode, views).Ok? <==>
      forall i :: 0 <= i < |views| && HasInstruction(views[i]) ==> LineWord(encode, views, i).Ok?
    decreases |views|
  {
    if views != [] {
      var n := |views| - 1;
      Pass2Succeeds(encode, views[..n]);
      forall i | 0 <= i < n
        ensures LineWord(encode, views, i) == LineWord(encode, views[..n], i)
      {
        Prefix(views, i);
      }
      if Pass2(encode, views[..n]).Ok? {
      }
    }
  }

  /** Once the second pass has failed on the first `i` lines, the later
      lines change nothing. */
  lemma {:induction false} Pass2Abort(encode: Encoder, views: seq<LineView>, i: nat)
    requires i <= |views| && Pass2(encode, views[..i]).Err?
    ensures Pass2(encode, views) == Pass2(encode, views[..i])
    decreases |views| - i
  {
    if i < |views| {
      Pass2Next(encode, views, i);
      Pass2Abort(encode, views, i + 1);
    } else {
      assert views[..i] == views;
    }
  }

  /** Line `i` is the first instruction line that fails, with `e`. */
  predicate FirstFailure(encode: Encoder, views: seq<LineView>, i: int, e: Error)
  {
    && 0 <= i < |views| && HasInstruction(views[i])
    && LineWord(encode, views, i) == Err(e)
    && forall k :: 0 <= k < i && HasInstruction(views[k]) ==> LineWord(encode, views, k).Ok?
  }

  /** A failing second pass reports the error of its first failing line;
      every instruction line before that one encodes. */
  lemma {:induction false} Pass2Fails(encode: Encoder, views: seq<LineView>)
    requires Pass2(encode, views).Err?
    ensures exists i :: FirstFailure(encode, views, i, Pass2(encode, views).error)
    decreases |views|
  {
    var n := |views| - 1;
    forall k | 0 <= k < n
      ensures LineWord(encode, views, k) == LineWord(encode, views[..n], k)
    {
      Prefix(views, k);
    }
    if Pass2(encode, views[..n]).Err? {
      Pass2Fails(encode, views[..n]);
      var i :| FirstFailure(encode, views[..n], i, Pass2(encode, views[..n]).error);
      assert FirstFailure(encode, views, i, Pass2(encode, views).error);
    } else {
      Pass2Succeeds(encode, views[..n]);
      assert FirstFailure(encode, views, n, Pass2(encode, views).error);
    }
  }

  /** The instruction line that word `k` comes from. */
  lemma {:induction false} LineOfWord(encode: Encoder, views: seq<LineView>, k: nat) returns (i: nat)
    requires Pass2(encode, views).Ok? && k < |Pass2(encode, views).value|
    ensures i < |views| && HasInstruction(views[i]) && Emitted(views[..i]) == k
    decreases |views|
  {
    var n := |views| - 1;
    if k < Emitted(views[..n]) {
      i := LineOfWord(encode, views[..n], k);
      Prefix(views, i);
    } else {
      i := n;
    }
  }

  // ---- the two passes together ----

  lemma {:induction false} NoInstructionBetween(views: seq<LineView>, j: nat, i: nat)
    requires j <= i <= |views|
    requires forall k :: j <= k < i ==> !HasInstruction(views[k])
    ensures Emitted(views[..j]) == Emitted(views[..i])
    decreases i - j
  {
    if j < i {
      NoInstructionBetween(views, j, i - 1);
      assert views[..i][..i - 1] == views[..i - 1];
    }
  }

  /** A label points at the word of the first instruction line at or after
      its (last) definition: its value is that line's address, and the word
      at a quarter of it is that line's encoding. */
  lemma LabelWord(encode: Encoder, views: seq<LineView>, name: string, j: nat, i: nat)
    requires Pass2(encode, views).Ok?
    requires j <= i < |views| && views[j].defines == Some(name)
    requires forall k :: j < k < |views| ==> views[k].defines != Some(name)
    requires HasInstruction(views[i]) && forall k :: j <= k < i ==> !HasInstruction(views[k])
    ensures name in Pass1(map[], views).labels
    ensures Pass1(map[], views).labels[name] == AddressOf(views, i)
    ensures Pass1(map[], views).labels[name] / 4 < |Pass2(encode, views).value|
    ensures LineWord(encode, views, i) == Ok(Pass2(encode, views).value[Pass1(map[], views).labels[name] / 4])
  {
    Pass1Address(map[], views, name, j);
    NoInstructionBetween(views, j, i);
    Pass2Word(encode, views, i);
  }

  // ---- with the encoder of `assemble` ----

  /** With the encoder of `assemble`, the word of line `i` is what `Encode`
      makes of the line's tokens at the line's address. */
  lemma AssembledLine(labels: map<string, int>, views: seq<LineView>, i: nat)
    requires Pass2(Assembler(labels), views).Ok? && i < |views| && HasInstruction(views[i])
    ensures Emitted(views[..i]) < |Pass2(Assembler(labels), views).value|
    ensures Encode(labels, AddressOf(views, i), Tokens(views[i].text))
      == Ok(Pass2(Assembler(labels), views).value[Emitted(views[..i])])
  {
    Pass2Word(Assembler(labels), views, i);
  }

  /** Every word of a successful pass is a 32-bit value. */
  lemma Pass2Words(labels: map<string, int>, views: seq<LineView>, k: nat)
    requires Pass2(Assembler(labels), views).Ok? && k < |Pass2(Assembler(labels), views).value|
    ensures 0 <= Pass2(Assembler(labels), views).value[k] < 0x1_0000_0000
  {
    var i := LineOfWord(Assembler(labels), views, k);
    AssembledLine(labels, views, i);
    EncodeWord(labels, AddressOf(views, i), Tokens(views[i].text));
  }

  /** A branch on line `i`, whose tokens are `parts`, names a defined label
      and carries the distance from its own address to that label's, which
      decodes back when it is even and within 4 KiB. */
  lemma BranchOffset(labels: map<string, int>, views: seq<LineView>, i: nat, parts: seq<string>, funct3: nat)
    requires Pass2(Assembler(labels), views).Ok? && i < |views| && HasInstruction(views[i])
    requires parts == Tokens(views[i].text) && |parts| > 0 && Lookup(Lower(parts[0])) == Some(Branch(funct3))
    ensures Emitted(views[..i]) < |Pass2(Assembler(labels), views).value|
    ensures |parts| >= 4 && parts[3] in labels
    ensures var offset := labels[parts[3]] - AddressOf(views, i);
      -0x1000 <= offset < 0x1000 && offset % 2 == 0 ==>
        ImmB(Pass2(Assembler(labels), views).value[Emitted(views[..i])]) == offset
  {
    AssembledLine(labels, views, i);
    var pc, w := AddressOf(views, i), Pass2(Assembler(labels), views).value[Emitted(views[..i])];
    assert Encode(labels, pc, parts) == Ok(w);
    BranchEncoding(labels, pc, parts, funct3);
    var offset := Distance(labels[parts[3]], pc);
    if -0x1000 <= offset < 0x1000 && offset % 2 == 0 {
      assert ImmB(Encode(labels, pc, parts).value) == offset;
    }
  }

  /** `jal` on line `i`, whose tokens are `parts`, names a defined label and
      carries the distance from its own address to that label's, which
      decodes back when it is even and within 1 MiB. */
  lemma JumpOffset(labels: map<string, int>, views: seq<LineView>, i: nat, parts: seq<string>)
    requires Pass2(Assembler(labels), views).Ok? && i < |views| && HasInstruction(views[i])
    requires parts == Tokens(views[i].text) && |parts| > 0 && Lookup(Lower(parts[0])) == Some(JumpAndLink)
    ensures Emitted(views[..i]) < |Pass2(Assembler(labels), views).value|
    ensures |parts| >= 3 && parts[2] in labels
    ensures var offset := labels[parts[2]] - AddressOf(views, i);
      -0x10_0000 <= offset < 0x10_0000 && offset % 2 == 0 ==>
        ImmJ(Pass2(Assembler(labels), views).value[Emitted(views[..i])]) == offset
  {
    AssembledLine(labels, views, i);
    var pc, w := AddressOf(views, i), Pass2(Assembler(labels), views).value[Emitted(views[..i])];
    assert Encode(labels, pc, parts) == Ok(w);
    JumpAndLinkEncoding(labels, pc, parts);
    var offset := Distance(labels[parts[2]], pc);
    if -0x10_0000 <= offset < 0x10_0000 && offset % 2 == 0 {
      assert ImmJ(Encode(labels, pc, parts).value) == offset;
    }
  }
}
