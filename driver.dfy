/** The test driver's side of the text protocol with the simulator
    (simdriver.py): the `--rs` register-state string it builds for
    `parseInitRegState`, and its parser for the register line of
    `printState`. */
module SimDriver {
  import opened Words
  import opened Decimal
  import opened Text
  import opened RegState
  import opened Semantics
  import opened Options

  /** A Python dict of register -> value, as its items in insertion order. */
  type Items = seq<(int, int)>

  /** `str(reg) + ":" + str(value)`. */
  function Entry(reg: int, value: int): string
  {
    IntText(reg) + ":" + IntText(value)
  }

  /** The entry texts of the items, in order. */
  function EntryTexts(items: Items): (t: seq<string>)
    ensures |t| == |items|
  {
    seq(|items|, k requires 0 <= k < |items| => Entry(items[k].0, items[k].1))
  }

  /** Texts joined by commas; none give `""`. */
  function Join(texts: seq<string>): string
    decreases |texts|
  {
    if |texts| == 0 then ""
    else if |texts| == 1 then texts[0]
    else texts[0] + "," + Join(texts[1..])
  }

  /** The `--rs` text for the items: their entries joined by commas. */
  function Joined(items: Items): string
  {
    Join(EntryTexts(items))
  }

  /** What the builder loop has appended after `texts`: every text
      followed by a comma. */
  function Terminated(texts: seq<string>): string
    decreases |texts|
  {
    if texts == [] then ""
    else Terminated(texts[..|texts| - 1]) + (texts[|texts| - 1] + ",")
  }

  /** Joining one more text. */
  lemma {:induction false} JoinSnoc(texts: seq<string>, t: string)
    requires texts != []
    ensures Join(texts + [t]) == Join(texts) + "," + t
    decreases |texts|
  {
    var s := texts + [t];
    assert s[0] == texts[0];
    if |texts| > 1 {
      assert s[1..] == texts[1..] + [t];
      JoinSnoc(texts[1..], t);
      calc {
        Join(s);
        texts[0] + "," + Join(texts[1..] + [t]);
        texts[0] + "," + (Join(texts[1..]) + "," + t);
        (texts[0] + "," + Join(texts[1..])) + "," + t;
      }
    } else {
      assert s[1..] == [t];
    }
  }

  /** The loop's text is the joined text with a comma after it. */
  lemma {:induction false} TerminatedIsJoin(texts: seq<string>)
    ensures Terminated(texts) == if texts == [] then "" else Join(texts) + ","
    decreases |texts|
  {
    if |texts| > 1 {
      var p := texts[..|texts| - 1];
      var t := texts[|texts| - 1];
      TerminatedIsJoin(p);
      assert p + [t] == texts;
      JoinSnoc(p, t);
      calc {
        Terminated(texts);
        Terminated(p) + (t + ",");
        (Join(p) + ",") + (t + ",");
        (Join(p) + "," + t) + ",";
      }
    } else if |texts| == 1 {
      assert texts[..0] == [];
    }
  }

  /** The `regstate` loop of `Driver.execute`: append `str(reg) + ":" +
      str(value) + ","` for every item, then drop the final comma. */
  method BuildRegState(inputRegState: Items) returns (regstate: string)
    ensures regstate == Joined(inputRegState)
  {
    ghost var texts := EntryTexts(inputRegState);
    regstate := "";
    var i := 0;
    while i < |inputRegState|
      invariant 0 <= i <= |inputRegState|
      invariant regstate == Terminated(texts[..i])
    {
      var (reg, value) := inputRegState[i];
      TerminatedStep(texts, i);
      regstate := regstate + (IntText(reg) + ":" + IntText(value) + ",");
      i := i + 1;
    }
    assert texts[..i] == texts;
    TerminatedIsJoin(texts);
    if |regstate| > 0 && regstate[|regstate| - 1] == ',' {
      DropComma(Joined(inputRegState));
      regstate := regstate[..|regstate| - 1];
    }
  }

  /** One more round of the builder loop. */
  lemma TerminatedStep(texts: seq<string>, i: nat)
    requires i < |texts|
    ensures Terminated(texts[..i + 1]) == Terminated(texts[..i]) + (texts[i] + ",")
  {
    assert texts[..i + 1][..i] == texts[..i];
  }

  /** Removing the last character of `s + ","`. */
  lemma DropComma(s: string)
    ensures (s + ",")[..|s + ","| - 1] == s
  {
  }

  /** The registers and values `parseInitRegState` reads without error:
      registers fit the 32-bit `unsigned` and values fit `int`. */
  predicate InRange(items: Items)
  {
    forall k :: 0 <= k < |items| ==>
      0 <= items[k].0 < Two32 && -0x8000_0000 <= items[k].1 < 0x8000_0000
  }

  /** The dict the items describe; a later item for a register wins. */
  function Dict(items: Items): (d: map<nat, int>)
    requires InRange(items)
    decreases |items|
  {
    if items == [] then map[]
    else
      var x := items[|items| - 1];
      Dict(items[..|items| - 1])[x.0 as nat := x.1]
  }

  /** A numeral holds no ':' and no ','. */
  lemma NumeralFree(i: int)
    ensures Free(IntText(i), ':') && Free(IntText(i), ',')
  {
    var s := IntText(i);
    assert forall k :: 0 <= k < |s| ==> NumeralChar(s[k]);
  }

  /** An entry holds no ','. */
  lemma EntryFree(reg: int, value: int)
    ensures Free(Entry(reg, value), ',')
  {
    NumeralFree(reg);
    NumeralFree(value);
  }

  /** `parseInitRegState` reads one entry back. */
  lemma EntryParses(reg: int, value: int)
    requires 0 <= reg < Two32 && -0x8000_0000 <= value < 0x8000_0000
    ensures WellFormedPiece(Entry(reg, value))
    ensures ParsePiece(Entry(reg, value)) == (reg, value)
  {
    var p := Entry(reg, value);
    var a, b := NatText(reg), IntText(value);
    NumeralFree(reg);
    assert p == a + [':'] + b;
    IndexOfAfter(a, ':', b);
    var pos := |a|;
    assert p[..pos] == a && p[pos + 1..] == b;
    NatRoundTrip(reg);
    IntRoundTrip(value);
    assert IsULong(p[..pos]) && NatValue(p[..pos]) % Two32 == reg;
    assert IsInt(p[pos + 1..]) && IntValue(p[pos + 1..]) == value;
  }


  /** An entry is not empty and holds no ','. */
  lemma EntryTextsFree(items: Items)
    ensures forall k :: 0 <= k < |items| ==>
      EntryTexts(items)[k] != "" && Free(EntryTexts(items)[k], ',')
  {
    forall k | 0 <= k < |items|
      ensures EntryTexts(items)[k] != "" && Free(EntryTexts(items)[k], ',')
    {
      EntryFree(items[k].0, items[k].1);
    }
  }

  /** `getline` splits comma-joined texts, none empty or holding a comma,
      back into those texts. */
  lemma {:induction false} PiecesOfJoin(texts: seq<string>)
    requires forall k :: 0 <= k < |texts| ==> texts[k] != "" && Free(texts[k], ',')
    ensures Pieces(Join(texts)) == texts
    decreases |texts|
  {
    if |texts| == 1 {
      PiecesFree(texts[0]);
    } else if |texts| > 1 {
      PiecesCons(texts[0], Join(texts[1..]));
      PiecesOfJoin(texts[1..]);
      assert texts == [texts[0]] + texts[1..];
    }
  }

  /** The second loop of `parseInitRegState` over the entry texts builds
      the dict. */
  lemma {:induction false} ParseEntryTexts(items: Items)
    requires InRange(items)
    ensures forall k :: 0 <= k < |items| ==> WellFormedPiece(EntryTexts(items)[k])
    ensures ParsePieces(EntryTexts(items)) == Dict(items)
    decreases |items|
  {
    forall k | 0 <= k < |items|
      ensures WellFormedPiece(EntryTexts(items)[k])
    {
      EntryParses(items[k].0, items[k].1);
    }
    if items != [] {
      var n := |items| - 1;
      assert EntryTexts(items)[..n] == EntryTexts(items[..n]);
      ParseEntryTexts(items[..n]);
      EntryParses(items[n].0, items[n].1);
    }
  }

  /** The string the driver builds reads back, in the simulator, as the
      dict it was built from; an empty dict gives `""` and the empty map. */
  lemma RegStateRoundTrip(items: Items)
    requires InRange(items)
    ensures WellFormed(Joined(items))
    ensures ParseInitRegState(Joined(items)) == Dict(items)
  {
    EntryTextsFree(items);
    PiecesOfJoin(EntryTexts(items));
    ParseEntryTexts(items);
  }

  /** In the dict, the last item for a register gives its value. */
  lemma {:induction false} DictLastWins(items: Items, j: nat)
    requires InRange(items) && j < |items|
    requires forall k :: j < k < |items| ==> items[k].0 != items[j].0
    ensures items[j].0 as nat in Dict(items) && Dict(items)[items[j].0 as nat] == items[j].1
    decreases |items|
  {
    if j < |items| - 1 {
      DictLastWins(items[..|items| - 1], j);
    }
  }

  /** A register given twice in the string gets the later value. */
  lemma LaterDuplicateWins(items: Items, j: nat)
    requires InRange(items) && j < |items|
    requires forall k :: j < k < |items| ==> items[k].0 != items[j].0
    ensures WellFormed(Joined(items)) && items[j].0 as nat in ParseInitRegState(Joined(items))
    ensures ParseInitRegState(Joined(items))[items[j].0 as nat] == items[j].1
  {
    RegStateRoundTrip(items);
    DictLastWins(items, j);
  }
  /** `SPECIAL_REGISTERS`: a line mentioning any of these is skipped. */
  const SpecialRegisters: seq<string> := ["ACC", "ADDR", "PC", "INSTRUCTIONS EXECUTED"]

  /** Python's `w in line`: `w` starts at some position of `line`. */
  predicate Contains(line: string, w: string)
    decreases |line|
  {
    |w| <= |line| && (line[..|w|] == w || (|line| > 0 && Contains(line[1..], w)))
  }

  /** `any(reg in line for reg in SPECIAL_REGISTERS)`. */
  predicate IsSpecial(line: string)
  {
    exists j :: 0 <= j < |SpecialRegisters| && Contains(line, SpecialRegisters[j])
  }

  /** `bytes.splitlines()` from the line `cur` read so far and the unread
      text `rest`: a line ends at "\n", "\r" or "\r\n", and a final line
      break gives no empty line after it. */
  function SplitLines(cur: string, rest: string): seq<string>
    decreases |rest|
  {
    if rest == [] then (if cur == [] then [] else [cur])
    else if rest[0] == '\n' then [cur] + SplitLines([], rest[1..])
    else if rest[0] == '\r' then
      [cur] + SplitLines([], if |rest| > 1 && rest[1] == '\n' then rest[2..] else rest[1..])
    else SplitLines(cur + [rest[0]], rest[1..])
  }

  function Lines(s: string): seq<string>
  {
    SplitLines([], s)
  }

  /** `filter(None, line.split(" "))`: the non-empty space-separated tokens. */
  function Tokens(line: string): seq<string>
  {
    NonEmpty(SplitOn(line, ' '))
  }

  /** Python's `int(s)` on the numerals `printState` writes; other text
      raises `ValueError` (`None`). */
  function PyInt(s: string): Option<int>
  {
    if IsIntText(s) then Some(IntValue(s)) else None
  }

  /** One token `p`: `p.split(":")`, then `int(p[0])` and `int(p[1])`; fewer
      than two parts raise `IndexError`, and either way the parse fails. */
  function ParseToken(p: string): Option<(int, int)>
  {
    var parts := SplitOn(p, ':');
    if |parts| < 2 then None
    else
      match (PyInt(parts[0]), PyInt(parts[1]))
      case (Some(reg), Some(value)) => Some((reg, value))
      case _ => None
  }

  /** `registerStates[i] = v` for the tokens in order, from `states`. */
  function ParseTokens(tokens: seq<string>, states: map<int, int>): Option<map<int, int>>
    decreases |tokens|
  {
    if tokens == [] then Some(states)
    else
      match ParseToken(tokens[0])
      case None => None
      case Some(e) => ParseTokens(tokens[1..], states[e.0 := e.1])
  }

  /** The outer loop over the lines, from `states`. */
  function ParseLines(lines: seq<string>, states: map<int, int>): Option<map<int, int>>
    decreases |lines|
  {
    if lines == [] then Some(states)
    else if IsSpecial(lines[0]) then ParseLines(lines[1..], states)
    else
      match ParseTokens(Tokens(lines[0]), states)
      case None => None
      case Some(next) => ParseLines(lines[1..], next)
  }

  /** What `Driver.parseSimulatorOutput` returns, `None` when it raises. */
  function ParseOutput(outputString: string): Option<map<int, int>>
  {
    ParseLines(Lines(outputString), map[])
  }

  /** `Driver.parseSimulatorOutput`: for each line that names no special
      register, set `registerStates[i] = v` for each token `i:v`. */
  method ParseSimulatorOutput(outputString: string) returns (r: Option<map<int, int>>)
    ensures r == ParseOutput(outputString)
  {
    var lines := Lines(outputString);
    var registerStates: map<int, int> := map[];
    var i := 0;
    while i < |lines|
      invariant 0 <= i <= |lines|
      invariant ParseOutput(outputString) == ParseLines(lines[i..], registerStates)
    {
      var line := lines[i];
      assert lines[i..][0] == line && lines[i..][1..] == lines[i + 1..];
      if !IsSpecial(line) {
        var pairs := Tokens(line);
        ghost var before := registerStates;
        var j := 0;
        while j < |pairs|
          invariant 0 <= j <= |pairs|
          invariant ParseTokens(pairs, before) == ParseTokens(pairs[j..], registerStates)
        {
          assert pairs[j..][0] == pairs[j] && pairs[j..][1..] == pairs[j + 1..];
          var p := SplitOn(pairs[j], ':');
          if |p| < 2 {
            return None;
          }
          var reg := PyInt(p[0]);
          var value := PyInt(p[1]);
          if reg.None? || value.None? {
            return None;
          }
          registerStates := registerStates[reg.value := value.value];
          j := j + 1;
        }
      }
      i := i + 1;
    }
    return Some(registerStates);
  }

  /** Whether `printState` shows register `i`: every register, or under
      `--osmr` only those `isModified` reports. */
  predicate Shown(m: Machine, onlyModified: bool, i: nat)
  {
    !onlyModified || i in m.modified
  }

  /** The register line of `printState` from register `i` on: `i:v ` for
      each shown register, `v` being `m_reg[i]` as an `int32_t`. */
  function RegisterLine(m: Machine, onlyModified: bool, i: nat): string
    decreases 256 - i
  {
    if i >= 256 then ""
    else
      (if Shown(m, onlyModified, i) then Entry(i, SInt(m.regs[i])) + " " else "")
      + RegisterLine(m, onlyModified, i + 1)
  }

  /** The register `printState`'s loop starts from. */
  const FirstRegister: nat := 0

  /** Lines written one after another, each ended by `std::endl`. */
  function Layout(lines: seq<string>): string
  {
    if lines == [] then "" else lines[0] + "\n" + Layout(lines[1..])
  }

  /** What `printState` writes: the register line, then the accumulator
      (signed) and the address register and pc (unsigned). */
  function StateText(m: Machine, onlyModified: bool): string
  {
    Layout([RegisterLine(m, onlyModified, FirstRegister),
            "ACC: " + IntText(SInt(m.acc)),
            "ADDR: " + IntText(m.addr as int),
            "PC: " + IntText(m.pc as int)])
  }

  /** The registers the driver should read back from register `i` on. */
  function ShownValues(m: Machine, onlyModified: bool, i: nat): map<int, int>
  {
    map k | i <= k < 256 && Shown(m, onlyModified, k) :: SInt(m.regs[k])
  }
  /** A line none of whose characters starts `w` does not contain `w`. */
  lemma {:induction false} NotContains(line: string, w: string)
    requires |w| > 0 && Free(line, w[0])
    ensures !Contains(line, w)
    decreases |line|
  {
    if |w| <= |line| {
      assert line[..|w|][0] == line[0];
      if |line| > 0 {
        NotContains(line[1..], w);
      }
    }
  }

  /** The characters of the register line: numerals, ':' and ' '. */
  predicate RegisterChars(s: string)
  {
    forall k :: 0 <= k < |s| ==> NumeralChar(s[k]) || s[k] == ':' || s[k] == ' '
  }

  lemma RegisterLineChars(m: Machine, onlyModified: bool, i: nat)
    ensures RegisterChars(RegisterLine(m, onlyModified, i))
    decreases 256 - i
  {
    if i < 256 {
      var rest := RegisterLine(m, onlyModified, i + 1);
      RegisterLineChars(m, onlyModified, i + 1);
      var head := if Shown(m, onlyModified, i) then Entry(i, SInt(m.regs[i])) + " " else "";
      if Shown(m, onlyModified, i) {
        EntryChars(i, SInt(m.regs[i]));
      }
      assert RegisterChars(head);
      assert RegisterLine(m, onlyModified, i) == head + rest;
      RegisterCharsAppend(head, rest);
    }
  }

  /** The register characters of two strings are those of their join. */
  lemma RegisterCharsAppend(a: string, b: string)
    requires RegisterChars(a) && RegisterChars(b)
    ensures RegisterChars(a + b)
  {
    assert forall k :: 0 <= k < |a + b| ==> (a + b)[k] == if k < |a| then a[k] else b[k - |a|];
  }

  /** No capital letter appears among those characters. */
  lemma RegisterCharsFree(s: string, c: char)
    requires RegisterChars(s) && 'A' <= c <= 'Z'
    ensures Free(s, c)
  {
  }

  /** A line of numerals, ':' and ' ' names no special register. */
  lemma RegisterCharsNotSpecial(line: string)
    requires RegisterChars(line)
    ensures !IsSpecial(line)
  {
    forall j | 0 <= j < |SpecialRegisters|
      ensures !Contains(line, SpecialRegisters[j])
    {
      var w := SpecialRegisters[j];
      assert |w| > 0 && 'A' <= w[0] <= 'Z';
      RegisterCharsFree(line, w[0]);
      NotContains(line, w);
    }
  }

  /** The register line names no special register, so the driver reads it. */
  lemma RegisterLineNotSpecial(m: Machine, onlyModified: bool, i: nat)
    ensures !IsSpecial(RegisterLine(m, onlyModified, i))
  {
    RegisterLineChars(m, onlyModified, i);
    RegisterCharsNotSpecial(RegisterLine(m, onlyModified, i));
  }

  lemma {:induction false} ContainsPrefix(a: string, b: string)
    ensures Contains(a + b, a)
  {
    assert (a + b)[..|a|] == a;
  }
  /** A line naming a special register, whatever follows the name. */
  lemma NamedLine(j: nat, tail: string)
    requires j < |SpecialRegisters|
    ensures IsSpecial(SpecialRegisters[j] + tail)
  {
    ContainsPrefix(SpecialRegisters[j], tail);
  }

  /** Lines that name special registers leave the registers read so far. */
  lemma {:induction false} SkipSpecial(lines: seq<string>, states: map<int, int>)
    requires forall k :: 0 <= k < |lines| ==> IsSpecial(lines[k])
    ensures ParseLines(lines, states) == Some(states)
    decreases |lines|
  {
    if lines != [] {
      SkipSpecial(lines[1..], states);
    }
  }

  /** Text without a line break. */
  predicate NoBreak(s: string)
  {
    forall k :: 0 <= k < |s| ==> s[k] != '\n' && s[k] != '\r'
  }

  /** A stretch without a line break joins the line being read. */
  lemma {:induction false} SplitLinesFree(cur: string, a: string, rest: string)
    requires NoBreak(a)
    ensures SplitLines(cur, a + rest) == SplitLines(cur + a, rest)
    decreases |a|
  {
    if a != [] {
      assert (a + rest)[0] == a[0] && (a + rest)[1..] == a[1..] + rest;
      assert cur + [a[0]] + a[1..] == cur + a;
      SplitLinesFree(cur + [a[0]], a[1..], rest);
    } else {
      assert a + rest == rest && cur + a == cur;
    }
  }

  /** The lines after one that ends at "\n". */
  lemma LinesCons(a: string, b: string)
    requires NoBreak(a)
    ensures Lines(a + "\n" + b) == [a] + Lines(b)
  {
    assert a + "\n" + b == a + ("\n" + b);
    SplitLinesFree([], a, "\n" + b);
    assert [] + a == a && ("\n" + b)[1..] == b;
  }

  /** The characters of an entry: numerals and ':'. */
  lemma EntryChars(reg: int, value: int)
    ensures forall k :: 0 <= k < |Entry(reg, value)| ==>
      NumeralChar(Entry(reg, value)[k]) || Entry(reg, value)[k] == ':'
  {
    var a, b := IntText(reg), IntText(value);
    assert forall k :: 0 <= k < |a| ==> NumeralChar(a[k]);
    assert forall k :: 0 <= k < |b| ==> NumeralChar(b[k]);
  }

  /** A register entry is not empty and has no space or line break in it. */
  lemma EntryShape(reg: int, value: int)
    ensures Entry(reg, value) != "" && Free(Entry(reg, value), ' ') && NoBreak(Entry(reg, value))
  {
    EntryChars(reg, value);
  }

  /** A register entry reads back as its register and value. */
  lemma EntryToken(reg: int, value: int)
    ensures ParseToken(Entry(reg, value)) == Some((reg, value))
  {
    var a, b := IntText(reg), IntText(value);
    NumeralFree(reg);
    NumeralFree(value);
    assert Entry(reg, value) == a + [':'] + b;
    SplitOnCons(a, ':', b);
    SplitOnFree(b, ':');
    assert SplitOn(Entry(reg, value), ':') == [a, b];
    IntRoundTrip(reg);
    IntRoundTrip(value);
    assert PyInt(a) == Some(reg) && PyInt(b) == Some(value);
  }



  /** The tokens after one that ends at a space. */
  lemma TokensCons(e: string, rest: string)
    requires e != "" && Free(e, ' ')
    ensures Tokens(e + " " + rest) == [e] + Tokens(rest)
  {
    assert e + " " + rest == e + [' '] + rest;
    SplitOnCons(e, ' ', rest);
    var x := SplitOn(rest, ' ');
    assert ([e] + x)[0] == e && ([e] + x)[1..] == x;
  }

  /** One token read, then the rest. */
  lemma ParseTokensCons(e: string, t: seq<string>, states: map<int, int>, x: (int, int))
    requires ParseToken(e) == Some(x)
    ensures ParseTokens([e] + t, states) == ParseTokens(t, states[x.0 := x.1])
  {
    assert ([e] + t)[0] == e && ([e] + t)[1..] == t;
  }

  /** The registers shown from `i` on are register `i`, when shown, and
      those from `i + 1` on, none of which is `i`. */
  lemma ShownValuesStep(m: Machine, onlyModified: bool, i: nat)
    requires i < 256
    ensures i !in ShownValues(m, onlyModified, i + 1)
    ensures ShownValues(m, onlyModified, i) ==
      if Shown(m, onlyModified, i) then ShownValues(m, onlyModified, i + 1)[i := SInt(m.regs[i])]
      else ShownValues(m, onlyModified, i + 1)
  {
  }

  /** Writing `i` before a map without `i` is writing it with that map. */
  lemma MergeUpdate(states: map<int, int>, later: map<int, int>, i: int, v: int)
    requires i !in later
    ensures states[i := v] + later == states + later[i := v]
  {
  }

  /** Reading the register line from register `i` on sets exactly the shown
      registers to the values printed. */
  lemma {:induction false} RegisterLineParses(m: Machine, onlyModified: bool, i: nat, states: map<int, int>)
    ensures ParseTokens(Tokens(RegisterLine(m, onlyModified, i)), states) ==
      Some(states + ShownValues(m, onlyModified, i))
    decreases 256 - i
  {
    if i >= 256 {
      assert ShownValues(m, onlyModified, i) == map[];
      assert states + map[] == states;
      assert RegisterLine(m, onlyModified, i) == "";
      assert Tokens("") == [] by {
        assert SplitOn("", ' ') == [""];
        assert [""][1..] == [];
      }
    } else {
      var rest := RegisterLine(m, onlyModified, i + 1);
      ShownValuesStep(m, onlyModified, i);
      if Shown(m, onlyModified, i) {
        var v := SInt(m.regs[i]);
        var e := Entry(i, v);
        EntryShape(i, v);
        EntryToken(i, v);
        TokensCons(e, rest);
        ParseTokensCons(e, Tokens(rest), states, (i, v));
        RegisterLineParses(m, onlyModified, i + 1, states[i := v]);
        MergeUpdate(states, ShownValues(m, onlyModified, i + 1), i, v);
      } else {
        assert RegisterLine(m, onlyModified, i) == "" + rest == rest;
        RegisterLineParses(m, onlyModified, i + 1, states);
      }
    }
  }

  /** Splitting laid-out lines gives the lines back. */
  lemma {:induction false} LinesOfLayout(lines: seq<string>)
    requires forall k :: 0 <= k < |lines| ==> NoBreak(lines[k])
    ensures Lines(Layout(lines)) == lines
  {
    if lines != [] {
      LinesCons(lines[0], Layout(lines[1..]));
      LinesOfLayout(lines[1..]);
    }
  }

  /** The names `printState` writes before the accumulator, the address
      register and the pc are special registers followed by ": ". */
  lemma SpecialNames()
    ensures "ACC: " == SpecialRegisters[0] + ": "
    ensures "ADDR: " == SpecialRegisters[1] + ": "
    ensures "PC: " == SpecialRegisters[2] + ": "
  {
  }

  /** A line `NAME: n` for a special register is skipped and has no line
      break in it. */
  lemma ValueLine(j: nat, n: int)
    requires j < 3
    ensures IsSpecial(SpecialRegisters[j] + ": " + IntText(n))
    ensures NoBreak(SpecialRegisters[j] + ": " + IntText(n))
  {
    var t := IntText(n);
    assert SpecialRegisters[j] + ": " + t == SpecialRegisters[j] + (": " + t);
    NamedLine(j, ": " + t);
    assert forall k :: 0 <= k < |t| ==> NumeralChar(t[k]);
  }

  /** The register line read from nothing gives the shown registers. */
  lemma RegisterLineReads(m: Machine, onlyModified: bool, i: nat)
    ensures ParseTokens(Tokens(RegisterLine(m, onlyModified, i)), map[]) ==
      Some(ShownValues(m, onlyModified, i))
  {
    RegisterLineParses(m, onlyModified, i, map[]);
    var shown := ShownValues(m, onlyModified, i);
    assert map[] + shown == shown;
  }

  /** Four laid-out lines of which only the first is read. */
  lemma ReadFirstOfFour(l0: string, l1: string, l2: string, l3: string, states: map<int, int>)
    requires NoBreak(l0) && NoBreak(l1) && NoBreak(l2) && NoBreak(l3)
    requires !IsSpecial(l0) && IsSpecial(l1) && IsSpecial(l2) && IsSpecial(l3)
    requires ParseTokens(Tokens(l0), map[]) == Some(states)
    ensures ParseOutput(Layout([l0, l1, l2, l3])) == Some(states)
  {
    LinesOfLayout([l0, l1, l2, l3]);
    SkipSpecial([l1, l2, l3], states);
    assert [l0, l1, l2, l3][1..] == [l1, l2, l3];
  }

  /** The register line has no line break in it. */
  lemma RegisterLineNoBreak(m: Machine, onlyModified: bool, i: nat)
    ensures NoBreak(RegisterLine(m, onlyModified, i))
  {
    RegisterLineChars(m, onlyModified, i);
    RegisterCharsNoBreak(RegisterLine(m, onlyModified, i));
  }

  lemma RegisterCharsNoBreak(s: string)
    requires RegisterChars(s)
    ensures NoBreak(s)
  {
  }

  /** The driver reads back what `printState` writes: the shown registers
      with their signed values, and nothing from the ACC, ADDR and PC lines. */
  lemma StateTextRoundTrip(m: Machine, onlyModified: bool)
    ensures ParseOutput(StateText(m, onlyModified)) == Some(ShownValues(m, onlyModified, 0))
  {
    SpecialNames();
    ValueLine(0, SInt(m.acc));
    ValueLine(1, m.addr as int);
    ValueLine(2, m.pc as int);
    RegisterLineNoBreak(m, onlyModified, FirstRegister);
    RegisterLineNotSpecial(m, onlyModified, FirstRegister);
    RegisterLineReads(m, onlyModified, FirstRegister);
    ReadFirstOfFour(RegisterLine(m, onlyModified, FirstRegister),
      "ACC: " + IntText(SInt(m.acc)), "ADDR: " + IntText(m.addr as int), "PC: " + IntText(m.pc as int),
      ShownValues(m, onlyModified, FirstRegister));
  }
  /** A token that is not `int:int` makes `parseSimulatorOutput` raise. */
  lemma {:induction false} BadTokenFails(tokens: seq<string>, states: map<int, int>, j: nat)
    requires j < |tokens| && ParseToken(tokens[j]).None?
    ensures ParseTokens(tokens, states).None?
    decreases j
  {
    if j > 0 && ParseToken(tokens[0]).Some? {
      var e := ParseToken(tokens[0]).value;
      assert tokens[1..][j - 1] == tokens[j];
      BadTokenFails(tokens[1..], states[e.0 := e.1], j - 1);
    }
  }

  /** Every token reads as `int:int`. */
  predicate AllParse(tokens: seq<string>)
  {
    forall k :: 0 <= k < |tokens| ==> ParseToken(tokens[k]).Some?
  }

  /** Tokens that do not name `reg` leave its value alone. */
  lemma {:induction false} ParseTokensKeep(tokens: seq<string>, states: map<int, int>, reg: int)
    requires AllParse(tokens) && reg in states
    requires forall k :: 0 <= k < |tokens| ==> ParseToken(tokens[k]).value.0 != reg
    ensures ParseTokens(tokens, states).Some?
    ensures reg in ParseTokens(tokens, states).value
    ensures ParseTokens(tokens, states).value[reg] == states[reg]
    decreases |tokens|
  {
    if tokens != [] {
      var e := ParseToken(tokens[0]).value;
      assert forall k :: 0 <= k < |tokens| - 1 ==> tokens[1..][k] == tokens[k + 1];
      ParseTokensKeep(tokens[1..], states[e.0 := e.1], reg);
    }
  }

  /** Of several tokens for one register, the last one sets its value. */
  lemma {:induction false} LastTokenWins(tokens: seq<string>, states: map<int, int>, j: nat, reg: int, value: int)
    requires AllParse(tokens) && j < |tokens| && ParseToken(tokens[j]) == Some((reg, value))
    requires forall k :: j < k < |tokens| ==> ParseToken(tokens[k]).value.0 != reg
    ensures ParseTokens(tokens, states).Some?
    ensures reg in ParseTokens(tokens, states).value
    ensures ParseTokens(tokens, states).value[reg] == value
    decreases j
  {
    var e := ParseToken(tokens[0]).value;
    assert forall k :: 0 <= k < |tokens| - 1 ==> tokens[1..][k] == tokens[k + 1];
    if j == 0 {
      ParseTokensKeep(tokens[1..], states[reg := value], reg);
    } else {
      LastTokenWins(tokens[1..], states[e.0 := e.1], j - 1, reg, value);
    }
  }
}
