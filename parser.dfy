/**
 * The tutorial-file parser (`Parser` in parser/parser.tsx).
 *
 * A tutorial file is read line by line by a three-mode machine: outside any
 * block, inside a step block `n {` ... `}`, or inside the property block
 * `TutorialProperties [` ... `]`. Inside a block every line is a
 * `Name: value;` property whose value may run on over further lines. Steps
 * are written into array slots indexed by their step number; a final pass
 * gives them slugs derived from the tutorial name and links neighbours.
 *
 * The pure functions below specify one line (`ProcessLine`), a prefix of the
 * file (`RunFrom`), the linking pass (`Link`) and a whole call (`ParseSpec`);
 * the class `Parser` is the imperative code, proved against them.
 */
module TutorialParser {
  import opened Wrappers
  import opened JsStrings
  import opened TutorialModel

  /** One more than the largest JavaScript array index: a write to an index
      outside `0 .. MaxArrayLength - 1` creates a plain property, invisible to
      `length`, to iteration and to the spread copy. */
  const MaxArrayLength: int := 0x1_0000_0000 - 1

  const Nil := "nil"

  /** The instance fields: the step slots (a JavaScript array, holes are
      `None`) and the defaults later steps take their name, author and icon
      from. */
  datatype ParserState = ParserState(steps: seq<Option<Tutorial>>, name: string, author: string, icon: string)

  /** The fields of a fresh parser. */
  const InitialState := ParserState([], Nil, Nil, Nil)

  /** Why `parse` throws; each line-level error carries the value of the line
      counter at the throw. */
  datatype ParseError =
    | NonPropertyLine(line: int)          // "Step block contains non-property line"
    | Unterminated(line: int)             // a value runs past the end of the file
    | MalformedBlock(line: int)           // a block opener that is not two tokens
    | ExpectedPropertiesBlock(line: int)  // `[` without `TutorialProperties`, or the reverse
    | NonIntegerStep(line: int)           // a step opener whose number is NaN
    | OutsideBlock(line: int)             // a non-blank line outside any block
    | LinkTypeError                       // the linking pass dereferences a hole

  /** The local variables of the loop in `parse`. */
  datatype LoopState = LoopState(p: ParserState, readingStep: bool, readingBlock: bool, lineCount: nat, currentStep: int)

  /** The outcome of a line: go on, or throw with the fields as they stand. */
  datatype Progress = Running(ls: LoopState) | Failed(error: ParseError, at: ParserState)

  /** The JavaScript array assignment `a[idx] = Some(t)`: a valid index
      overwrites or extends (the gap becomes holes), any other is lost. */
  function ArrayWrite(a: seq<Option<Tutorial>>, idx: int, t: Tutorial): (r: seq<Option<Tutorial>>)
    ensures 0 <= idx < MaxArrayLength ==>
      && |r| == (if idx < |a| then |a| else idx + 1)
      && r[idx] == Some(t)
      && (forall j :: 0 <= j < |a| && j != idx ==> r[j] == a[j])
      && (forall j :: |a| <= j < |r| && j != idx ==> r[j] == None)
    ensures !(0 <= idx < MaxArrayLength) ==> r == a
  {
    if 0 <= idx < MaxArrayLength then
      if idx < |a| then a[idx := Some(t)]
      else a + seq(idx - |a|, _ => None) + [Some(t)]
    else a
  }

  /** The record a step opener `n {` creates, before any property of the
      block is read. */
  function NewStep(n: int, p: ParserState): (t: Tutorial)
    requires n >= 1
    ensures t.id == NatToString(n) && t.slug == "step-" + NatToString(n)
    ensures t.name == p.name && t.author == p.author && t.icon == p.icon
    ensures t.stepTitle == Nil && t.content == "" && t.language == "en"
    ensures !t.hasHint && t.hint == Some(Nil)
    ensures !t.hasNextSection && t.nextSection == Some(Nil)
    ensures !t.hasPrevSection && t.prevSection == Some(Nil)
  {
    Tutorial(NatToString(n), p.name, p.icon, p.author, Nil, "", false, Some(Nil), "en",
             "step-" + NatToString(n), false, Some(Nil), false, Some(Nil), ["microbitV1", "microbitV2"])
  }

  /** The slot write of a step opener with step number `n` (slot `n - 1`). */
  function StoreStep(p: ParserState, n: int): (r: ParserState)
    ensures r.name == p.name && r.author == p.author && r.icon == p.icon
    ensures 1 <= n <= MaxArrayLength ==> r.steps == ArrayWrite(p.steps, n - 1, NewStep(n, p))
    ensures !(1 <= n <= MaxArrayLength) ==> r == p
  {
    if 1 <= n <= MaxArrayLength then p.(steps := ArrayWrite(p.steps, n - 1, NewStep(n, p))) else p
  }

  /** The property names `#setProperty` recognises. */
  predicate KnownProperty(name: string) {
    name in {"StepTitle", "Contents", "TutorialName", "Author", "Icon"}
  }

  /** The property names that also become defaults for later steps. */
  predicate DefaultProperty(name: string) {
    name in {"TutorialName", "Author", "Icon"}
  }

  /** The field a property name sets on one record. */
  function SetField(t: Tutorial, name: string, value: string): (r: Tutorial)
    ensures !KnownProperty(name) ==> r == t
    ensures name == "StepTitle" ==> r == t.(stepTitle := value)
    ensures name == "Contents" ==> r == t.(content := value)
    ensures name == "TutorialName" ==> r == t.(name := value)
    ensures name == "Author" ==> r == t.(author := value)
    ensures name == "Icon" ==> r == t.(icon := value)
  {
    if name == "StepTitle" then t.(stepTitle := value)
    else if name == "Contents" then t.(content := value)
    else if name == "TutorialName" then t.(name := value)
    else if name == "Author" then t.(author := value)
    else if name == "Icon" then t.(icon := value)
    else t
  }

  /** `#setProperty`: only a slot holding a record is changed. */
  function SetPropertySpec(steps: seq<Option<Tutorial>>, name: string, value: string, idx: int): (r: seq<Option<Tutorial>>)
    ensures |r| == |steps|
    ensures forall j :: 0 <= j < |steps| && j != idx ==> r[j] == steps[j]
    ensures 0 <= idx < |steps| ==>
      r[idx] == if steps[idx].Some? then Some(SetField(steps[idx].value, name, value)) else None
  {
    if 0 <= idx < |steps| && steps[idx].Some? then steps[idx := Some(SetField(steps[idx].value, name, value))]
    else steps
  }

  /** Every record of `steps` with the property set. */
  function SetAll(steps: seq<Option<Tutorial>>, name: string, value: string): (r: seq<Option<Tutorial>>)
    ensures |r| == |steps|
    ensures forall j :: 0 <= j < |steps| ==>
      r[j] == if steps[j].Some? then Some(SetField(steps[j].value, name, value)) else None
  {
    seq(|steps|, j requires 0 <= j < |steps| =>
      if steps[j].Some? then Some(SetField(steps[j].value, name, value)) else None)
  }

  /** `#setTutorialProperty`: the property is set on every stored record and,
      for the name, author and icon, kept as the default for later steps. */
  function SetTutorialPropertySpec(p: ParserState, name: string, value: string): (r: ParserState)
    ensures r.steps == SetAll(p.steps, name, value)
    ensures r.name == (if name == "TutorialName" then value else p.name)
    ensures r.author == (if name == "Author" then value else p.author)
    ensures r.icon == (if name == "Icon" then value else p.icon)
  {
    var q := p.(steps := SetAll(p.steps, name, value));
    if name == "TutorialName" then q.(name := value)
    else if name == "Author" then q.(author := value)
    else if name == "Icon" then q.(icon := value)
    else q
  }

  /** The continuation scan: while the value does not end in `;`, append a
      blank and the raw line `lines[cur]`; `None` when the file ends first. */
  function ScanValue(lines: seq<string>, cur: nat, acc: string): (r: Option<string>)
    ensures r.Some? ==> EndsWith(r.value, ';')
    decreases |lines| - cur
  {
    if EndsWith(acc, ';') then Some(acc)
    else if cur >= |lines| then None
    else ScanValue(lines, cur + 1, acc + " " + lines[cur])
  }

  /** A property line `Name: value` inside a block, split at its first
      colon; the value is completed by the continuation scan and loses its
      final `;`. */
  function PropertyLine(ls: LoopState, lines: seq<string>, line: string): Progress {
    var colon := IndexOf(line, ':');
    if colon == -1 then Failed(NonPropertyLine(ls.lineCount), ls.p)
    else
      var scanned := ScanValue(lines, ls.lineCount, Trim(line[colon + 1..]));
      if scanned.None? then Failed(Unterminated(ls.lineCount), ls.p)
      else
        var p' := ApplyProperty(ls, Trim(line[..colon]), DropLast(scanned.value));
        Running(ls.(p := p', lineCount := ls.lineCount + 1))
  }

  /** A property read in the property block goes to every step and the
      defaults, one read in a step block to the current step only. */
  function ApplyProperty(ls: LoopState, name: string, value: string): ParserState {
    if ls.readingBlock then SetTutorialPropertySpec(ls.p, name, value)
    else ls.p.(steps := SetPropertySpec(ls.p.steps, name, value, ls.currentStep - 1))
  }

  /** `s.slice(0, s.length - 1)`. */
  function DropLast(s: string): (r: string)
    ensures |s| > 0 ==> s == r + [s[|s| - 1]]
    ensures |s| == 0 ==> r == s
  {
    if |s| == 0 then s else s[..|s| - 1]
  }

  /** One line inside a block: its closer, or a property. */
  function BlockLine(ls: LoopState, lines: seq<string>, line: string): Progress {
    if ls.readingStep && line == "}" then
      Running(ls.(readingStep := false, lineCount := ls.lineCount + 1))
    else if ls.readingBlock && line == "]" then
      Running(ls.(readingBlock := false, lineCount := ls.lineCount + 1))
    else PropertyLine(ls, lines, line)
  }

  /** True when a trimmed line ends like a block opener. */
  predicate OpensBlock(line: string) {
    EndsWith(line, '{') || EndsWith(line, '[')
  }

  /** One line outside any block: blank, a block opener, or an error. The
      opener of the property block leaves the line counter as it was. */
  function OutsideLine(ls: LoopState, line: string): Progress {
    if OpensBlock(line) then
      var parts := Split(line, ' ');
      if |parts| != 2 then Failed(MalformedBlock(ls.lineCount), ls.p)
      else if parts[0] == "TutorialProperties" || EndsWith(line, '[') then
        if !(parts[0] == "TutorialProperties" && EndsWith(line, '[')) then
          Failed(ExpectedPropertiesBlock(ls.lineCount), ls.p)
        else Running(ls.(readingBlock := true))
      else
        match ParseInt(parts[0])
        case None => Failed(NonIntegerStep(ls.lineCount), ls.p)
        case Some(n) =>
          Running(ls.(p := StoreStep(ls.p, n), readingStep := true, currentStep := n,
                      lineCount := ls.lineCount + 1))
    else if line != "" then Failed(OutsideBlock(ls.lineCount), ls.p)
    else Running(ls.(lineCount := ls.lineCount + 1))
  }

  /** The body of the loop of `parse` for the line with index `k`. */
  function ProcessLine(ls: LoopState, lines: seq<string>, k: nat): Progress
    requires k < |lines|
  {
    var line := Trim(lines[k]);
    if ls.readingStep || ls.readingBlock then BlockLine(ls, lines, line) else OutsideLine(ls, line)
  }

  /** The loop state before the first line. */
  function StartLoop(p: ParserState): LoopState {
    LoopState(p, false, false, 1, 1)
  }

  /** The lines from index `k` on, processed in order from the loop state
      `ls`; a throw ends the run. */
  function RunFrom(ls: LoopState, lines: seq<string>, k: nat): Progress
    requires k <= |lines|
    decreases |lines| - k
  {
    if k == |lines| then Running(ls)
    else
      var next := ProcessLine(ls, lines, k);
      if next.Failed? then next else RunFrom(next.ls, lines, k + 1)
  }

  /** The index of the first hole, or the length when there is none. */
  function FirstHole(steps: seq<Option<Tutorial>>): (h: nat)
    ensures h <= |steps|
    ensures forall j :: 0 <= j < h ==> steps[j].Some?
    ensures h < |steps| ==> steps[h].None?
  {
    if steps == [] || steps[0].None? then 0 else 1 + FirstHole(steps[1..])
  }

  /** The slug the linking pass gives to step number `n` (1-based). */
  function SlugAt(base: string, n: nat): string {
    base + "-" + NatToString(n)
  }

  /** Slot `j` after the linking pass has worked through the first `m`
      slots: its slug, its forward link when slot `j + 1` is among them, its
      backward link when it is not the first. */
  function LinkSlot(t: Tutorial, base: string, j: nat, m: nat): Tutorial {
    var t1 := t.(slug := SlugAt(base, j + 1));
    var t2 := if j + 1 < m then t1.(hasNextSection := true, nextSection := Some(SlugAt(base, j + 2))) else t1;
    if j >= 1 then t2.(hasPrevSection := true, prevSection := Some(SlugAt(base, j))) else t2
  }

  /** The slots after the linking pass has worked through the first `m`. */
  function LinkedUpTo(steps: seq<Option<Tutorial>>, base: string, m: nat): (r: seq<Option<Tutorial>>)
    requires m <= |steps|
    requires forall j :: 0 <= j < m ==> steps[j].Some?
    ensures |r| == |steps|
    ensures forall j :: m <= j < |steps| ==> r[j] == steps[j]
    ensures forall j :: 0 <= j < m ==> r[j] == Some(LinkSlot(steps[j].value, base, j, m))
  {
    seq(|steps|, j requires 0 <= j < |steps| =>
      if j < m then Some(LinkSlot(steps[j].value, base, j, m)) else steps[j])
  }

  /** The slots before the linking pass looks at slot `i`. */
  function LinkedBefore(steps: seq<Option<Tutorial>>, base: string, i: nat): (r: seq<Option<Tutorial>>)
    requires i < |steps|
    requires i > 0 ==> forall j :: 0 <= j <= i ==> steps[j].Some?
    ensures |r| == |steps|
  {
    if i == 0 then steps else LinkedUpTo(steps, base, i + 1)
  }

  /** One pass of the loop body over two present slots links them. */
  lemma LinkAdvance(steps: seq<Option<Tutorial>>, base: string, i: nat)
    requires i + 1 < |steps|
    requires forall j :: 0 <= j <= i + 1 ==> steps[j].Some?
    ensures var before := LinkedBefore(steps, base, i);
            var current := before[i].value.(slug := SlugAt(base, i + 1));
            var next := before[i + 1].value.(slug := SlugAt(base, i + 2));
            var current' := current.(hasNextSection := true, nextSection := Some(next.slug));
            var next' := next.(hasPrevSection := true, prevSection := Some(current'.slug));
            before[i := Some(current')][i + 1 := Some(next')] == LinkedUpTo(steps, base, i + 2)
  {
  }

  /** A hole after slot `i` stops the pass with slot `i` renamed only. */
  lemma LinkStopsAtHole(steps: seq<Option<Tutorial>>, base: string, i: nat)
    requires i + 1 < |steps|
    requires forall j :: 0 <= j <= i ==> steps[j].Some?
    requires steps[i + 1].None?
    ensures var before := LinkedBefore(steps, base, i);
            before[i := Some(before[i].value.(slug := SlugAt(base, i + 1)))] == LinkedUpTo(steps, base, i + 1)
  {
  }

  /** `#linkList`: whether it finishes, and the slots it leaves. With fewer
      than two slots the loop does not run; otherwise it links up to the
      first hole and fails there, having already relabelled the slot before. */
  function Link(steps: seq<Option<Tutorial>>, base: string): (bool, seq<Option<Tutorial>>) {
    if |steps| < 2 then (true, steps)
    else
      var h := FirstHole(steps);
      (h == |steps|, LinkedUpTo(steps, base, h))
  }

  /** A whole call `parse(text)` on a parser with fields `p`: the result and
      the fields afterwards. A throw leaves the fields as they were at the
      throw; a successful call returns a copy of the linked slots (a hole
      would be copied as `undefined`) and empties the slots, but keeps the
      defaults. */
  function ParseSpec(p: ParserState, text: string): (Result<seq<Option<Tutorial>>, ParseError>, ParserState) {
    var lines := Split(text, '\n');
    match RunFrom(StartLoop(p), lines, 0)
    case Failed(e, at) => (Err(e), at)
    case Running(ls) =>
      var (ok, linked) := Link(ls.p.steps, Slugify(ls.p.name));
      if ok then (Ok(linked), ls.p.(steps := [])) else (Err(LinkTypeError), ls.p.(steps := linked))
  }

  /** The parser object. */
  class Parser {
    var steps: seq<Option<Tutorial>>
    var tutorialName: string
    var tutorialAuthor: string
    var tutorialIconPath: string

    /** The fields as one value. */
    function State(): ParserState
      reads this
    {
      ParserState(steps, tutorialName, tutorialAuthor, tutorialIconPath)
    }

    constructor()
      ensures State() == InitialState
    {
      steps := [];
      tutorialName := Nil;
      tutorialAuthor := Nil;
      tutorialIconPath := Nil;
    }

    /** `#setProperty(name, value, stepIndex)`. */
    method SetProperty(name: string, value: string, stepIndex: int)
      modifies this
      ensures State() == old(State()).(steps := SetPropertySpec(old(steps), name, value, stepIndex))
    {
      if 0 <= stepIndex < |steps| && steps[stepIndex].Some? {
        var t := steps[stepIndex].value;
        if name == "StepTitle" {
          t := t.(stepTitle := value);
        } else if name == "Contents" {
          t := t.(content := value);
        } else if name == "TutorialName" {
          t := t.(name := value);
        } else if name == "Author" {
          t := t.(author := value);
        } else if name == "Icon" {
          t := t.(icon := value);
        }
        steps := steps[stepIndex := Some(t)];
      }
    }

    /** `#setTutorialProperty(name, value)`. */
    method SetTutorialProperty(name: string, value: string)
      modifies this
      ensures State() == SetTutorialPropertySpec(old(State()), name, value)
    {
      ghost var target := SetAll(old(steps), name, value);
      for i := 0 to |steps|
        invariant |steps| == |old(steps)|
        invariant forall j :: 0 <= j < i ==> steps[j] == target[j]
        invariant forall j :: i <= j < |steps| ==> steps[j] == old(steps)[j]
        invariant tutorialName == old(tutorialName) && tutorialAuthor == old(tutorialAuthor)
        invariant tutorialIconPath == old(tutorialIconPath)
      {
        SetProperty(name, value, i);
      }
      assert steps == target;
      if name == "TutorialName" {
        tutorialName := value;
      } else if name == "Author" {
        tutorialAuthor := value;
      } else if name == "Icon" {
        tutorialIconPath := value;
      }
    }

    /** `#linkList()`; `ok` is false where the loop dereferences a hole. */
    method LinkList() returns (ok: bool)
      modifies this
      ensures (ok, steps) == Link(old(steps), Slugify(old(tutorialName)))
      ensures tutorialName == old(tutorialName) && tutorialAuthor == old(tutorialAuthor)
      ensures tutorialIconPath == old(tutorialIconPath)
    {
      var i := 0;
      var slugifiedName := Slugify(tutorialName);
      ghost var original := steps;
      ghost var h := FirstHole(steps);
      while i < |steps| - 1
        invariant |steps| == |original|
        invariant |steps| >= 2 ==> i <= |steps| - 1
        invariant i > 0 ==> i + 1 <= h
        invariant |steps| >= 2 ==> steps == LinkedBefore(original, slugifiedName, i)
        invariant |steps| < 2 ==> steps == original
        invariant tutorialName == old(tutorialName) && tutorialAuthor == old(tutorialAuthor)
        invariant tutorialIconPath == old(tutorialIconPath)
      {
        if steps[i].None? {
          assert i == 0 && h == 0;
          assert steps == LinkedUpTo(original, slugifiedName, 0);
          return false;
        }
        var current := steps[i].value.(slug := SlugAt(slugifiedName, i + 1));
        if steps[i + 1].None? {
          assert original[i + 1].None? && h == i + 1;
          LinkStopsAtHole(original, slugifiedName, i);
          steps := steps[i := Some(current)];
          return false;
        }
        var next := steps[i + 1].value.(slug := SlugAt(slugifiedName, i + 2));
        current := current.(hasNextSection := true, nextSection := Some(next.slug));
        next := next.(hasPrevSection := true, prevSection := Some(current.slug));
        LinkAdvance(original, slugifiedName, i);
        steps := steps[i := Some(current)][i + 1 := Some(next)];
        i := i + 1;
      }
      if |steps| >= 2 {
        assert i > 0 && h == |steps|;
      }
      ok := true;
    }

    /** The loop body of `parse` for a line read inside a block: the closer
        of the block, or a property. */
    method ReadBlockLine(fileLines: seq<string>, truncatedLine: string, readingStep: bool,
                         readingPropertyBlock: bool, lineCount: nat, currentStep: int)
      returns (failed: Option<ParseError>, stillStep: bool, stillBlock: bool)
      requires lineCount <= |fileLines|
      requires readingStep || readingPropertyBlock
      modifies this
      ensures BlockLine(LoopState(old(State()), readingStep, readingPropertyBlock, lineCount, currentStep), fileLines, truncatedLine)
              == if failed.Some? then Failed(failed.value, State())
                 else Running(LoopState(State(), stillStep, stillBlock, lineCount + 1, currentStep))
    {
      stillStep, stillBlock := readingStep, readingPropertyBlock;
      if readingStep && truncatedLine == "}" {
        stillStep := false;
        failed := None;
      } else if readingPropertyBlock && truncatedLine == "]" {
        stillBlock := false;
        failed := None;
      } else {
        failed := ReadProperty(fileLines, truncatedLine, readingStep, readingPropertyBlock, lineCount, currentStep);
      }
    }

    /** A property line inside a block: split at the first colon, complete
        the value over continuation lines, and set it on the current step
        or, in the property block, on every step and the defaults. */
    method ReadProperty(fileLines: seq<string>, truncatedLine: string, readingStep: bool,
                        readingPropertyBlock: bool, lineCount: nat, currentStep: int)
      returns (failed: Option<ParseError>)
      requires lineCount <= |fileLines|
      modifies this
      ensures PropertyLine(LoopState(old(State()), readingStep, readingPropertyBlock, lineCount, currentStep), fileLines, truncatedLine)
              == if failed.Some? then Failed(failed.value, State())
                 else Running(LoopState(State(), readingStep, readingPropertyBlock, lineCount + 1, currentStep))
    {
      var firstColon := IndexOf(truncatedLine, ':');
      if firstColon == -1 {
        return Some(NonPropertyLine(lineCount));
      }
      var propertyName := Trim(truncatedLine[..firstColon]);
      var propertyContents := ScanContents(fileLines, lineCount, Trim(truncatedLine[firstColon + 1..]));
      if propertyContents.None? {
        return Some(Unterminated(lineCount));
      }
      var realContents := DropLast(propertyContents.value);
      ghost var ls := LoopState(State(), readingStep, readingPropertyBlock, lineCount, currentStep);
      if readingPropertyBlock {
        SetTutorialProperty(propertyName, realContents);
      } else {
        SetProperty(propertyName, realContents, currentStep - 1);
      }
      assert State() == ApplyProperty(ls, propertyName, realContents);
      failed := None;
    }

    /** The continuation loop: append a blank and the next raw line until the
        value ends in `;`; `None` where `parse` throws at the end of the file. */
    method ScanContents(fileLines: seq<string>, lineCount: nat, contents: string) returns (full: Option<string>)
      requires lineCount <= |fileLines|
      ensures full == ScanValue(fileLines, lineCount, contents)
    {
      var propertyContents := contents;
      var currentRealLine := lineCount;
      while !EndsWith(propertyContents, ';')
        invariant lineCount <= currentRealLine <= |fileLines|
        invariant ScanValue(fileLines, currentRealLine, propertyContents) == ScanValue(fileLines, lineCount, contents)
        decreases |fileLines| - currentRealLine
      {
        if currentRealLine >= |fileLines| {
          return None;
        }
        propertyContents := propertyContents + " " + fileLines[currentRealLine];
        currentRealLine := currentRealLine + 1;
      }
      full := Some(propertyContents);
    }

    /** The loop body of `parse` for a line read outside any block: blank, a
        block opener or an error. */
    method ReadOutsideLine(truncatedLine: string, lineCount: nat, currentStep: int)
      returns (failed: Option<ParseError>, readingStep: bool, readingPropertyBlock: bool, stepNow: int)
      modifies this
      ensures failed.None? ==> !(readingStep && readingPropertyBlock)
      ensures OutsideLine(LoopState(old(State()), false, false, lineCount, currentStep), truncatedLine)
              == if failed.Some? then Failed(failed.value, State())
                 else Running(LoopState(State(), readingStep, readingPropertyBlock,
                                        if readingPropertyBlock then lineCount else lineCount + 1, stepNow))
    {
      readingStep, readingPropertyBlock, stepNow := false, false, currentStep;
      if OpensBlock(truncatedLine) {
        var blockBeginningParts := Split(truncatedLine, ' ');
        if |blockBeginningParts| != 2 {
          return Some(MalformedBlock(lineCount)), readingStep, readingPropertyBlock, stepNow;
        }
        if blockBeginningParts[0] == "TutorialProperties" || EndsWith(truncatedLine, '[') {
          if !(blockBeginningParts[0] == "TutorialProperties" && EndsWith(truncatedLine, '[')) {
            return Some(ExpectedPropertiesBlock(lineCount)), readingStep, readingPropertyBlock, stepNow;
          }
          return None, readingStep, true, stepNow;
        }
        var stepNum := ParseInt(blockBeginningParts[0]);
        readingStep := true;
        if stepNum.None? {
          return Some(NonIntegerStep(lineCount)), readingStep, readingPropertyBlock, stepNow;
        }
        if 1 <= stepNum.value <= MaxArrayLength {
          steps := ArrayWrite(steps, stepNum.value - 1, NewStep(stepNum.value, State()));
        }
        stepNow := stepNum.value;
      } else if truncatedLine != "" {
        return Some(OutsideBlock(lineCount)), readingStep, readingPropertyBlock, stepNow;
      }
      failed := None;
    }

    /** The body of the loop of `parse` for the line with index `k`: the
        line is trimmed and handled according to the mode; the opener of the
        property block leaves the line counter as it was (the `continue`). */
    method ReadLine(fileLines: seq<string>, k: nat, readingStep: bool, readingPropertyBlock: bool,
                    lineCount: nat, currentStep: int)
      returns (failed: Option<ParseError>, nextStep: bool, nextBlock: bool, nextCount: nat, nextCurrent: int)
      requires k < |fileLines| && lineCount <= k + 1
      modifies this
      ensures failed.None? ==> nextCount <= k + 2
      ensures ProcessLine(LoopState(old(State()), readingStep, readingPropertyBlock, lineCount, currentStep), fileLines, k)
              == if failed.Some? then Failed(failed.value, State())
                 else Running(LoopState(State(), nextStep, nextBlock, nextCount, nextCurrent))
    {
      var truncatedLine := Trim(fileLines[k]);
      nextCurrent := currentStep;
      if readingStep || readingPropertyBlock {
        failed, nextStep, nextBlock :=
          ReadBlockLine(fileLines, truncatedLine, readingStep, readingPropertyBlock, lineCount, currentStep);
      } else {
        failed, nextStep, nextBlock, nextCurrent := ReadOutsideLine(truncatedLine, lineCount, currentStep);
        if failed.None? && nextBlock {
          // the opener of the property block skips the line counter
          return failed, nextStep, nextBlock, lineCount, nextCurrent;
        }
      }
      nextCount := lineCount + 1;
    }

    /** `parse(fileText)`: `r` is the returned copy, or the error thrown. */
    method Parse(fileText: string) returns (r: Result<seq<Option<Tutorial>>, ParseError>)
      modifies this
      ensures (r, State()) == ParseSpec(old(State()), fileText)
    {
      var readingStep := false;
      var readingPropertyBlock := false;
      var lineCount: nat := 1;
      var fileLines := Split(fileText, '\n');
      var currentStep: int := 1;
      ghost var run := RunFrom(StartLoop(State()), fileLines, 0);
      for k := 0 to |fileLines|
        invariant lineCount <= k + 1
        invariant RunFrom(LoopState(State(), readingStep, readingPropertyBlock, lineCount, currentStep), fileLines, k) == run
      {
        var failed: Option<ParseError>;
        failed, readingStep, readingPropertyBlock, lineCount, currentStep :=
          ReadLine(fileLines, k, readingStep, readingPropertyBlock, lineCount, currentStep);
        if failed.Some? {
          return Err(failed.value);
        }
      }
      var ok := LinkList();
      if !ok {
        return Err(LinkTypeError);
      }
      r := Ok(steps);
      steps := [];
    }
  }
}
