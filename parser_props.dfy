/**
 * Properties of the tutorial-file parser, stated about the specification
 * functions the class `Parser` is proved against: what each kind of line
 * does, the continuation scan, the line counter, the property rules and
 * the linking pass.
 */
module ParserProperties {
  import opened Wrappers
  import opened JsStrings
  import opened TutorialModel
  import opened TutorialParser

  /** The line number an error reports, if any. */
  function ErrorLine(e: ParseError): Option<int> {
    match e
    case NonPropertyLine(n) => Some(n)
    case Unterminated(n) => Some(n)
    case MalformedBlock(n) => Some(n)
    case ExpectedPropertiesBlock(n) => Some(n)
    case NonIntegerStep(n) => Some(n)
    case OutsideBlock(n) => Some(n)
    case LinkTypeError => None
  }

  /** The trimmed lines accepted outside a block: a blank line, the opener
      of the property block (first token `TutorialProperties`, ending in
      `[`) or a step opener (two tokens, ending in `{`, a number first). */
  predicate AcceptedOutside(line: string) {
    var parts := Split(line, ' ');
    || line == ""
    || (|parts| == 2 && EndsWith(line, '[') && parts[0] == "TutorialProperties")
    || (|parts| == 2 && EndsWith(line, '{') && parts[0] != "TutorialProperties" && ParseInt(parts[0]).Some?)
  }

  /** Outside a block exactly the accepted lines go through; any other
      throws at the current line and leaves the fields as they are. Blank
      lines only advance the counter. */
  lemma OutsideLineOutcome(ls: LoopState, line: string)
    ensures OutsideLine(ls, line).Running? <==> AcceptedOutside(line)
    ensures OutsideLine(ls, line).Failed? ==>
              OutsideLine(ls, line).at == ls.p && ErrorLine(OutsideLine(ls, line).error) == Some(ls.lineCount)
    ensures line == "" ==> OutsideLine(ls, line) == Running(ls.(lineCount := ls.lineCount + 1))
    ensures line != "" && !OpensBlock(line) ==> OutsideLine(ls, line) == Failed(OutsideBlock(ls.lineCount), ls.p)
  {
  }

  /** The opener rules: an opener must be two tokens; `TutorialProperties`
      and `[` go together; a step opener must start with a number. */
  lemma OpenerErrors(ls: LoopState, line: string)
    requires OpensBlock(line)
    ensures |Split(line, ' ')| != 2 ==> OutsideLine(ls, line) == Failed(MalformedBlock(ls.lineCount), ls.p)
    ensures |Split(line, ' ')| == 2 && ((Split(line, ' ')[0] == "TutorialProperties") != EndsWith(line, '[')) ==>
              OutsideLine(ls, line) == Failed(ExpectedPropertiesBlock(ls.lineCount), ls.p)
    ensures |Split(line, ' ')| == 2 && Split(line, ' ')[0] != "TutorialProperties" && !EndsWith(line, '[') &&
            ParseInt(Split(line, ' ')[0]).None? ==>
              OutsideLine(ls, line) == Failed(NonIntegerStep(ls.lineCount), ls.p)
  {
  }

  /** `TutorialProperties [` splits into its two tokens. */
  lemma PropertiesOpenerTokens()
    ensures Split("TutorialProperties [", ' ') == ["TutorialProperties", "["]
  {
    SplitNoSeparator("[", ' ');
    SplitAtSeparator("TutorialProperties", ' ', "[");
    assert "TutorialProperties [" == "TutorialProperties" + [' '] + "[";
  }

  /** The opener of the property block switches to the property block
      without advancing the line counter: from here on the counter is one
      behind the physical line number. */
  lemma HeaderOpenerKeepsLineCount(ls: LoopState)
    ensures OutsideLine(ls, "TutorialProperties [") == Running(ls.(readingBlock := true))
  {
    PropertiesOpenerTokens();
  }

  /** A step opener `n {` stores a fresh record in slot `n - 1`, replacing
      any record there, extends the array with holes when needed, makes `n`
      the current step and advances the counter. */
  lemma StepOpenerStoresFreshRecord(ls: LoopState, line: string, n: int)
    requires EndsWith(line, '{') && |Split(line, ' ')| == 2
    requires Split(line, ' ')[0] != "TutorialProperties" && ParseInt(Split(line, ' ')[0]) == Some(n)
    requires 1 <= n <= MaxArrayLength
    ensures OutsideLine(ls, line).Running?
    ensures var ls' := OutsideLine(ls, line).ls;
      && ls'.readingStep && ls'.readingBlock == ls.readingBlock && ls'.currentStep == n && ls'.lineCount == ls.lineCount + 1
      && ls'.p.name == ls.p.name && ls'.p.author == ls.p.author && ls'.p.icon == ls.p.icon
      && |ls'.p.steps| == (if n <= |ls.p.steps| then |ls.p.steps| else n)
      && ls'.p.steps[n - 1] == Some(NewStep(n, ls.p))
      && (forall j :: 0 <= j < |ls.p.steps| && j != n - 1 ==> ls'.p.steps[j] == ls.p.steps[j])
      && (forall j :: |ls.p.steps| <= j < n - 1 ==> ls'.p.steps[j].None?)
  {
    StepOpenerRuns(ls, line, n);
    var steps' := StoreStep(ls.p, n).steps;
    assert steps' == ArrayWrite(ls.p.steps, n - 1, NewStep(n, ls.p));
  }

  /** The state after a step opener, as one update. */
  lemma StepOpenerRuns(ls: LoopState, line: string, n: int)
    requires EndsWith(line, '{') && |Split(line, ' ')| == 2
    requires Split(line, ' ')[0] != "TutorialProperties" && ParseInt(Split(line, ' ')[0]) == Some(n)
    requires 1 <= n <= MaxArrayLength
    ensures OutsideLine(ls, line) ==
      Running(ls.(p := StoreStep(ls.p, n), readingStep := true, currentStep := n, lineCount := ls.lineCount + 1))
  {
    var parts := Split(line, ' ');
    assert OpensBlock(line) && !EndsWith(line, '[');
    assert !(parts[0] == "TutorialProperties" || EndsWith(line, '['));
  }

  /** The record a step opener stores breaks the record invariants: `hint`
      is defined while `hasHint` is false, and the same holds for both
      links. */
  lemma ParsedRecordViolatesValid(n: int, p: ParserState)
    requires n >= 1
    ensures !Valid(NewStep(n, p))
    ensures NewStep(n, p).hint.Some? && !NewStep(n, p).hasHint
    ensures NewStep(n, p).nextSection.Some? && !NewStep(n, p).hasNextSection
    ensures NewStep(n, p).prevSection.Some? && !NewStep(n, p).hasPrevSection
  {
  }

  /** The raw lines `lines[cur .. m - 1]`, each preceded by a blank. */
  function Continuation(lines: seq<string>, cur: nat, m: nat): string
    requires cur <= m <= |lines|
    decreases m - cur
  {
    if m == cur then "" else Continuation(lines, cur, m - 1) + " " + lines[m - 1]
  }

  /** A value `acc` extended by the lines `cur .. m - 1`. */
  function Extended(lines: seq<string>, cur: nat, m: nat, acc: string): string
    requires cur <= m <= |lines|
  {
    acc + Continuation(lines, cur, m)
  }

  lemma {:induction false} ExtendedFirst(lines: seq<string>, cur: nat, m: nat, acc: string)
    requires cur < m <= |lines|
    ensures Extended(lines, cur, m, acc) == Extended(lines, cur + 1, m, acc + " " + lines[cur])
    decreases m - cur
  {
    if m == cur + 1 {
      assert Continuation(lines, cur + 1, m) == "";
      assert Continuation(lines, cur, m) == "" + " " + lines[cur];
    } else {
      ExtendedFirst(lines, cur, m - 1, acc);
      var acc' := acc + " " + lines[cur];
      calc {
        Extended(lines, cur, m, acc);
        acc + (Continuation(lines, cur, m - 1) + " " + lines[m - 1]);
        (acc + Continuation(lines, cur, m - 1)) + " " + lines[m - 1];
        (acc' + Continuation(lines, cur + 1, m - 1)) + " " + lines[m - 1];
        acc' + (Continuation(lines, cur + 1, m - 1) + " " + lines[m - 1]);
        Extended(lines, cur + 1, m, acc');
      }
    }
  }

  /** No extension before the `m`-th ends in `;`. */
  predicate NoSemicolonBefore(lines: seq<string>, cur: nat, m: nat, acc: string)
    requires cur <= m <= |lines|
  {
    forall m' :: cur <= m' < m ==> !EndsWith(Extended(lines, cur, m', acc), ';')
  }

  /** The continuation scan: a value is extended by the blank-prefixed raw
      lines from `cur` on up to the first point where it ends in `;`; when no
      such point exists before the file ends, the scan fails. */
  lemma {:induction false} ScanValueFindsFirstSemicolon(lines: seq<string>, cur: nat, acc: string)
    requires cur <= |lines|
    ensures ScanValue(lines, cur, acc).Some? ==>
      exists m :: cur <= m <= |lines| && ScanValue(lines, cur, acc).value == Extended(lines, cur, m, acc) &&
        NoSemicolonBefore(lines, cur, m, acc)
    ensures ScanValue(lines, cur, acc).None? <==>
      forall m :: cur <= m <= |lines| ==> !EndsWith(Extended(lines, cur, m, acc), ';')
    decreases |lines| - cur
  {
    assert Extended(lines, cur, cur, acc) == acc;
    if EndsWith(acc, ';') {
    } else if cur == |lines| {
    } else {
      var acc' := acc + " " + lines[cur];
      ScanValueFindsFirstSemicolon(lines, cur + 1, acc');
      forall m | cur < m <= |lines| ensures Extended(lines, cur, m, acc) == Extended(lines, cur + 1, m, acc') {
        ExtendedFirst(lines, cur, m, acc);
      }
      if ScanValue(lines, cur, acc).Some? {
        var m :| cur + 1 <= m <= |lines| && ScanValue(lines, cur + 1, acc').value == Extended(lines, cur + 1, m, acc') &&
          NoSemicolonBefore(lines, cur + 1, m, acc');
        assert ScanValue(lines, cur, acc).value == Extended(lines, cur, m, acc);
        assert NoSemicolonBefore(lines, cur, m, acc);
      }
    }
  }

  /** Inside a block, every line but the block's own closer must hold a
      colon, or the parse throws at the current line; a blank line too. */
  lemma BlockLineNeedsColon(ls: LoopState, lines: seq<string>, line: string)
    requires !(ls.readingStep && line == "}") && !(ls.readingBlock && line == "]")
    ensures ':' !in line ==> BlockLine(ls, lines, line) == Failed(NonPropertyLine(ls.lineCount), ls.p)
    ensures line == "" ==> BlockLine(ls, lines, line).Failed?
  {
  }

  /** A property line is split at its first colon `c`: the trimmed text
      before it names the property, the trimmed text after it starts the
      value, which the continuation scan completes from the line the counter
      names; the final `;` is dropped. */
  lemma PropertySplitAtFirstColon(ls: LoopState, lines: seq<string>, line: string, c: nat)
    requires !(ls.readingStep && line == "}") && !(ls.readingBlock && line == "]")
    requires c < |line| && line[c] == ':' && ':' !in line[..c]
    ensures ':' !in Trim(line[..c])
    ensures ScanValue(lines, ls.lineCount, Trim(line[c + 1..])).None? ==>
      BlockLine(ls, lines, line) == Failed(Unterminated(ls.lineCount), ls.p)
    ensures ScanValue(lines, ls.lineCount, Trim(line[c + 1..])).Some? ==>
      BlockLine(ls, lines, line) ==
        Running(ls.(p := ApplyProperty(ls, Trim(line[..c]), DropLast(ScanValue(lines, ls.lineCount, Trim(line[c + 1..])).value)),
                    lineCount := ls.lineCount + 1))
  {
    IndexOfAt(line, ':', c);
    assert BlockLine(ls, lines, line) == PropertyLine(ls, lines, line);
    TrimmedNameHasNoColon(line[..c]);
  }

  /** Trimming a name free of colons leaves it free of colons. */
  lemma TrimmedNameHasNoColon(before: string)
    requires ':' !in before
    ensures ':' !in Trim(before)
  {
    TrimStartDropsLeadingWhite(before);
    TrimEndDropsTrailingWhite(TrimStart(before));
    var start := |before| - |TrimStart(before)|;
    assert forall k :: 0 <= k < |Trim(before)| ==> Trim(before)[k] == before[start + k];
  }

  /** The header opener is the only line after which the counter does not
      advance; every other line that does not throw advances it by one. */
  lemma LineCountAdvance(ls: LoopState, lines: seq<string>, k: nat)
    requires k < |lines|
    ensures ProcessLine(ls, lines, k).Running? ==>
      ProcessLine(ls, lines, k).ls.lineCount ==
        if !ls.readingStep && !ls.readingBlock && ProcessLine(ls, lines, k).ls.readingBlock
        then ls.lineCount else ls.lineCount + 1
  {
  }

  /** One line advances the counter by zero or one. */
  lemma LineCountStep(ls: LoopState, lines: seq<string>, k: nat, next: Progress)
    requires k < |lines| && next == ProcessLine(ls, lines, k)
    ensures next.Running? ==> ls.lineCount <= next.ls.lineCount <= ls.lineCount + 1
  {
    LineCountAdvance(ls, lines, k);
  }

  /** Over a run of lines the counter never falls back. */
  lemma {:induction false} RunFromLineCountGrows(ls: LoopState, lines: seq<string>, k: nat)
    requires k <= |lines|
    ensures RunFrom(ls, lines, k).Running? ==> ls.lineCount <= RunFrom(ls, lines, k).ls.lineCount
    decreases |lines| - k
  {
    if k == |lines| {
      assert RunFrom(ls, lines, k) == Running(ls);
    } else {
      var next := ProcessLine(ls, lines, k);
      LineCountStep(ls, lines, k, next);
      if next.Failed? {
        assert RunFrom(ls, lines, k) == next;
      } else {
        assert RunFrom(ls, lines, k) == RunFrom(next.ls, lines, k + 1);
        RunFromLineCountGrows(next.ls, lines, k + 1);
      }
    }
  }

  /** Over a run of lines the counter advances by at most one per line. */
  lemma {:induction false} RunFromLineCountBounded(ls: LoopState, lines: seq<string>, k: nat)
    requires k <= |lines|
    ensures RunFrom(ls, lines, k).Running? ==> RunFrom(ls, lines, k).ls.lineCount <= ls.lineCount + |lines| - k
    decreases |lines| - k
  {
    if k == |lines| {
      assert RunFrom(ls, lines, k) == Running(ls);
    } else {
      var next := ProcessLine(ls, lines, k);
      LineCountStep(ls, lines, k, next);
      if next.Failed? {
        assert RunFrom(ls, lines, k) == next;
      } else {
        assert RunFrom(ls, lines, k) == RunFrom(next.ls, lines, k + 1);
        RunFromLineCountBounded(next.ls, lines, k + 1);
      }
    }
  }

  /** A property name `#setProperty` does not recognise (`ContentsJSON`,
      say) changes nothing, in a step block or in the property block. */
  lemma UnknownPropertyChangesNothing(ls: LoopState, name: string, value: string)
    requires !KnownProperty(name)
    ensures ApplyProperty(ls, name, value) == ls.p
  {
    if ls.readingBlock {
      var steps := SetAll(ls.p.steps, name, value);
      assert forall j :: 0 <= j < |steps| ==> steps[j] == ls.p.steps[j];
      assert steps == ls.p.steps;
    } else {
      var steps := SetPropertySpec(ls.p.steps, name, value, ls.currentStep - 1);
      assert forall j :: 0 <= j < |steps| ==> steps[j] == ls.p.steps[j];
      assert steps == ls.p.steps;
    }
  }

  /** A property of the property block reaches every step parsed so far,
      whatever name it has (step titles and contents too); only the name,
      author and icon become defaults for the steps still to come. */
  lemma HeaderPropertyReachesEveryStep(ls: LoopState, name: string, value: string)
    requires ls.readingBlock
    ensures var p' := ApplyProperty(ls, name, value);
      && |p'.steps| == |ls.p.steps|
      && (forall j :: 0 <= j < |ls.p.steps| && ls.p.steps[j].Some? ==>
            p'.steps[j] == Some(SetField(ls.p.steps[j].value, name, value)))
      && (forall j :: 0 <= j < |ls.p.steps| && ls.p.steps[j].None? ==> p'.steps[j].None?)
      && (!DefaultProperty(name) ==> p'.name == ls.p.name && p'.author == ls.p.author && p'.icon == ls.p.icon)
      && (name == "TutorialName" ==> p'.name == value)
      && (name == "Author" ==> p'.author == value)
      && (name == "Icon" ==> p'.icon == value)
  {
  }

  /** A property of a step block changes only the current step's slot, and
      nothing when that slot holds no record; the defaults stay. */
  lemma StepPropertyTouchesCurrentSlot(ls: LoopState, name: string, value: string)
    requires !ls.readingBlock
    ensures var p' := ApplyProperty(ls, name, value);
      && p'.name == ls.p.name && p'.author == ls.p.author && p'.icon == ls.p.icon
      && |p'.steps| == |ls.p.steps|
      && (forall j :: 0 <= j < |ls.p.steps| && j != ls.currentStep - 1 ==> p'.steps[j] == ls.p.steps[j])
      && (0 <= ls.currentStep - 1 < |ls.p.steps| && ls.p.steps[ls.currentStep - 1].None? ==> p'.steps == ls.p.steps)
  {
    var p' := ApplyProperty(ls, name, value);
    if 0 <= ls.currentStep - 1 < |ls.p.steps| && ls.p.steps[ls.currentStep - 1].None? {
      assert forall j :: 0 <= j < |p'.steps| ==> p'.steps[j] == ls.p.steps[j];
    }
  }

  /** With two or more steps and no gap the linking pass completes and
      works through every slot. */
  lemma LinkCompletes(steps: seq<Option<Tutorial>>, base: string)
    requires |steps| >= 2
    requires forall j :: 0 <= j < |steps| ==> steps[j].Some?
    ensures Link(steps, base) == (true, LinkedUpTo(steps, base, |steps|))
  {
  }

  /** After a complete linking pass step `j` (from 0) has the slug
      `base-(j+1)` and every neighbouring pair is linked both ways with the
      flags set. */
  lemma LinkedNeighbours(steps: seq<Option<Tutorial>>, base: string, j: nat)
    requires forall i :: 0 <= i < |steps| ==> steps[i].Some?
    requires j + 1 < |steps|
    ensures var r := LinkedUpTo(steps, base, |steps|);
      && r[j].value.slug == SlugAt(base, j + 1)
      && r[j + 1].value.slug == SlugAt(base, j + 2)
      && r[j].value.hasNextSection && r[j].value.nextSection == Some(r[j + 1].value.slug)
      && r[j + 1].value.hasPrevSection && r[j + 1].value.prevSection == Some(r[j].value.slug)
  {
  }

  /** The first step keeps its backward link and the last its forward link
      (for parsed records: the flags false, the links `"nil"`); apart from
      slugs and links no field of a record changes. */
  lemma LinkedEnds(steps: seq<Option<Tutorial>>, base: string)
    requires |steps| >= 2
    requires forall i :: 0 <= i < |steps| ==> steps[i].Some?
    ensures var r := LinkedUpTo(steps, base, |steps|);
      && r[0].value.hasPrevSection == steps[0].value.hasPrevSection
      && r[0].value.prevSection == steps[0].value.prevSection
      && r[|r| - 1].value.hasNextSection == steps[|r| - 1].value.hasNextSection
      && r[|r| - 1].value.nextSection == steps[|r| - 1].value.nextSection
    ensures var r := LinkedUpTo(steps, base, |steps|);
      forall i :: 0 <= i < |r| ==>
        r[i].value.(slug := "", hasNextSection := false, nextSection := None, hasPrevSection := false, prevSection := None)
        == steps[i].value.(slug := "", hasNextSection := false, nextSection := None, hasPrevSection := false, prevSection := None)
  {
  }

  /** The slugs the linking pass gives are pairwise distinct. */
  lemma SlugAtInjective(base: string, a: nat, b: nat)
    requires SlugAt(base, a) == SlugAt(base, b)
    ensures a == b
  {
    var prefix := base + "-";
    assert SlugAt(base, a) == prefix + NatToString(a);
    assert SlugAt(base, b) == prefix + NatToString(b);
    assert NatToString(a) == SlugAt(base, a)[|prefix|..];
    assert NatToString(b) == SlugAt(base, b)[|prefix|..];
    NatToStringInjective(a, b);
  }

  /** A gap in the step numbers leaves a hole that the linking pass
      dereferences: the parse fails. */
  lemma LinkHoleFails(steps: seq<Option<Tutorial>>, base: string, j: nat)
    requires |steps| >= 2 && j < |steps| && steps[j].None?
    ensures !Link(steps, base).0
  {
  }

  /** Continuation lines are not skipped: after a property line the loop
      reads the next line as a line of its own, even when the continuation
      scan has already appended it to the value. Such a line without a colon
      (`b;` after `Contents: a`) makes the parse throw at the next line
      number, after the property has been stored. */
  lemma ContinuationLineReread(ls: LoopState, lines: seq<string>, k: nat)
    requires k + 1 < |lines|
    requires ProcessLine(ls, lines, k).Running?
    requires ls.readingStep || ls.readingBlock
    requires !(ls.readingStep && Trim(lines[k]) == "}") && !(ls.readingBlock && Trim(lines[k]) == "]")
    requires ':' !in Trim(lines[k + 1]) && Trim(lines[k + 1]) != "}" && Trim(lines[k + 1]) != "]"
    ensures RunFrom(ls, lines, k) == Failed(NonPropertyLine(ls.lineCount + 1), ProcessLine(ls, lines, k).ls.p)
  {
    var next := ProcessLine(ls, lines, k);
    assert next.ls.lineCount == ls.lineCount + 1 && next.ls.readingStep == ls.readingStep &&
      next.ls.readingBlock == ls.readingBlock;
    assert RunFrom(ls, lines, k) == RunFrom(next.ls, lines, k + 1);
    BlockLineNeedsColon(next.ls, lines, Trim(lines[k + 1]));
    assert ProcessLine(next.ls, lines, k + 1) == Failed(NonPropertyLine(ls.lineCount + 1), next.ls.p);
  }

  /** A file opening with the property block: the second line (index 1) is
      read with the counter at 1, so the continuation scan of a value on it
      starts at `lines[1]`, the line itself, instead of the line after. */
  lemma HeaderAtTopLags(p: ParserState, lines: seq<string>)
    requires |lines| >= 1 && Trim(lines[0]) == "TutorialProperties ["
    ensures RunFrom(StartLoop(p), lines, 0) == RunFrom(LoopState(p, false, true, 1, 1), lines, 1)
  {
    HeaderOpenerKeepsLineCount(StartLoop(p));
  }

  /** An empty file after a successful parse: no steps, nothing changes. */
  lemma EmptyFileParsesToNothing(p: ParserState)
    requires p.steps == []
    ensures ParseSpec(p, "") == (Ok([]), p)
  {
    assert Split("", '\n') == [""];
    assert Trim("") == "";
    assert RunFrom(StartLoop(p), [""], 0) == RunFrom(StartLoop(p).(lineCount := 2), [""], 1);
  }

  /** The opener line `n {` of step `n`. */
  function StepOpener(n: nat): string {
    NatToString(n) + " {"
  }

  lemma OpenerTokens(n: nat)
    ensures '\n' !in StepOpener(n)
    ensures Trim(StepOpener(n)) == StepOpener(n)
    ensures Split(StepOpener(n), ' ') == [NatToString(n), "{"]
  {
    var s := NatToString(n);
    assert forall i :: 0 <= i < |s| ==> s[i] != ' ' && s[i] != '\n';
    assert StepOpener(n) == s + [' '] + "{";
    assert forall i :: 0 <= i < |StepOpener(n)| ==> StepOpener(n)[i] != '\n' by {
      forall i | 0 <= i < |StepOpener(n)| ensures StepOpener(n)[i] != '\n' {
        if i < |s| { assert StepOpener(n)[i] == s[i]; }
      }
    }
    assert !IsWhite(StepOpener(n)[0]) by { assert StepOpener(n)[0] == s[0]; }
    TrimUntouched(StepOpener(n));
    SplitNoSeparator("{", ' ');
    SplitAtSeparator(s, ' ', "{");
  }

  /** The first line of a file that opens step `n` stores the fresh record
      of step `n` and enters the step block. */
  lemma OpenerLineRuns(p: ParserState, lines: seq<string>, n: nat)
    requires |lines| >= 1 && lines[0] == StepOpener(n) && 1 <= n <= MaxArrayLength
    ensures ProcessLine(StartLoop(p), lines, 0) == Running(LoopState(StoreStep(p, n), true, false, 2, n))
  {
    OpenerTokens(n);
    ParseIntOfNatToString(n);
    assert NatToString(n) != "TutorialProperties" by {
      assert IsDigit(NatToString(n)[0]);
    }
    StepOpenerRuns(StartLoop(p), StepOpener(n), n);
  }

  /** The linking pass over the slots a single step opener leaves in an
      empty parser: step 1 alone finishes unchanged, any higher number
      leaves holes in front of it and fails. */
  lemma LinkAfterOneOpener(p: ParserState, n: nat, base: string)
    requires p.steps == [] && 1 <= n <= MaxArrayLength
    ensures n == 1 ==> Link(StoreStep(p, n).steps, base) == (true, [Some(NewStep(1, p))])
    ensures n > 1 ==> !Link(StoreStep(p, n).steps, base).0
  {
    var steps := StoreStep(p, n).steps;
    if n > 1 {
      assert steps[0] == None;
      LinkHoleFails(steps, base, 0);
    } else {
      assert steps == [Some(NewStep(1, p))];
    }
  }

  /** A file that is nothing but an unclosed step block parses like the
      closed one: the end of the file ends the loop inside the block without
      an error. Step 1 alone gives one record with slug `step-1`, id `1`,
      no hint and no links; any other step number leaves holes in front of
      the record and the linking pass fails. */
  lemma UnclosedStepFile(p: ParserState, n: nat)
    requires p.steps == [] && 1 <= n <= MaxArrayLength
    ensures n == 1 ==> ParseSpec(p, StepOpener(n)) == (Ok([Some(NewStep(1, p))]), p)
    ensures n > 1 ==> ParseSpec(p, StepOpener(n)).0 == Err(LinkTypeError)
  {
    OpenerTokens(n);
    SplitNoSeparator(StepOpener(n), '\n');
    var lines := [StepOpener(n)];
    OpenerLineRuns(p, lines, n);
    var ls := LoopState(StoreStep(p, n), true, false, 2, n);
    assert RunFrom(StartLoop(p), lines, 0) == Running(ls);
    LinkAfterOneOpener(p, n, Slugify(p.name));
  }

  /** A file made of one closed step block `n {` / `}`. */
  lemma SingleStepFile(p: ParserState, n: nat)
    requires p.steps == [] && 1 <= n <= MaxArrayLength
    ensures n == 1 ==> ParseSpec(p, StepOpener(n) + "\n}") == (Ok([Some(NewStep(1, p))]), p)
    ensures n > 1 ==> ParseSpec(p, StepOpener(n) + "\n}").0 == Err(LinkTypeError)
  {
    OpenerTokens(n);
    SplitNoSeparator("}", '\n');
    SplitAtSeparator(StepOpener(n), '\n', "}");
    assert StepOpener(n) + "\n}" == StepOpener(n) + ['\n'] + "}";
    var lines := [StepOpener(n), "}"];
    assert Split(StepOpener(n) + "\n}", '\n') == lines;
    OpenerLineRuns(p, lines, n);
    var ls := LoopState(StoreStep(p, n), true, false, 2, n);
    TrimUntouched("}");
    var closed := ls.(readingStep := false, lineCount := 3);
    assert ProcessLine(ls, lines, 1) == Running(closed);
    assert RunFrom(closed, lines, 2) == Running(closed);
    assert RunFrom(ls, lines, 1) == Running(closed);
    assert RunFrom(StartLoop(p), lines, 0) == Running(closed);
    LinkAfterOneOpener(p, n, Slugify(p.name));
  }

  /** A one-line file whose line the loop accepts without storing a step
      parses to no steps. */
  lemma OneLineFile(p: ParserState, line: string, ls: LoopState)
    requires p.steps == [] && Split(line, '\n') == [line]
    requires ProcessLine(StartLoop(p), [line], 0) == Running(ls) && ls.p == p
    ensures ParseSpec(p, line) == (Ok([]), p)
  {
    assert RunFrom(ls, [line], 1) == Running(ls);
    assert RunFrom(StartLoop(p), [line], 0) == Running(ls);
  }

  lemma PropertiesOpenerIsOneLine()
    ensures Split("TutorialProperties [", '\n') == ["TutorialProperties ["]
  {
    assert '\n' !in "TutorialProperties [";
    SplitNoSeparator("TutorialProperties [", '\n');
  }

  lemma PropertiesOpenerLineRuns(p: ParserState)
    ensures ProcessLine(StartLoop(p), ["TutorialProperties ["], 0) == Running(StartLoop(p).(readingBlock := true))
  {
    TrimUntouched("TutorialProperties [");
    HeaderOpenerKeepsLineCount(StartLoop(p));
  }

  /** An unclosed property block with no property in it parses to no steps. */
  lemma UnclosedPropertiesFile(p: ParserState)
    requires p.steps == []
    ensures ParseSpec(p, "TutorialProperties [") == (Ok([]), p)
  {
    PropertiesOpenerIsOneLine();
    PropertiesOpenerLineRuns(p);
    OneLineFile(p, "TutorialProperties [", StartLoop(p).(readingBlock := true));
  }

  /** A successful parse empties the slots and keeps the defaults it ends
      with; a failed one leaves the fields as they were at the throw. */
  lemma ParseOutcome(p: ParserState, text: string)
    ensures var (r, q) := ParseSpec(p, text);
      && (r.Ok? ==>
            q.steps == [] && RunFrom(StartLoop(p), Split(text, '\n'), 0).Running? &&
            q == RunFrom(StartLoop(p), Split(text, '\n'), 0).ls.p.(steps := []))
      && (r.Err? && r.error != LinkTypeError ==> RunFrom(StartLoop(p), Split(text, '\n'), 0) == Failed(r.error, q))
  {
  }
}
