/**
 * The conversion of the rich-text editor's document tree into display
 * elements (`EditorTextRenderer.tsx`). The tree is taken as already built;
 * the elements are an abstract inline datatype in place of React elements.
 */
module EditorRenderer {
  import opened Wrappers

  /** A node of the editor's document tree: its `type`, its `children`
      (possibly undefined), its `text` (possibly undefined) and its `format`
      bit mask. */
  datatype Node = Node(kind: string, children: Children, text: Option<string>, format: int)

  /** The `children` property of a node. */
  datatype Children = Absent | Present(nodes: seq<Node>)

  /** The serialised editor state: its `root` node. */
  datatype EditorData = EditorData(root: Node)

  /** The elements `handleNode` returns. */
  datatype Inline =
    | CodeEmbed(code: Option<string>)   // <CodeEmbed code={...}/>
    | Paragraph(items: seq<Inline>)     // <p>...</p>
    | Bare(text: Option<string>)        // the text itself
    | Bold(inner: Inline)               // <b>
    | Italic(inner: Inline)             // <em>
    | Strike(inner: Inline)             // <s>
    | Underline(inner: Inline)          // <u>
    | Placeholder                       // <div/>

  /** JavaScript's string conversion of a possibly undefined string, as in
      `acc + current`. */
  function JsString(s: Option<string>): string {
    match s
    case None => "undefined"
    case Some(v) => v
  }

  /** `handleAsPlainText`: a node with children gives the concatenation of
      its children's plain text, any other node its `text`. */
  function PlainText(n: Node): Option<string>
    decreases n, 1
  {
    match n.children
    case Absent => n.text
    case Present(cs) => Some(ChildrenText(cs))
  }

  /** `children.map(handleAsPlainText).reduce((acc, cur) => acc + cur, "")`. */
  function ChildrenText(cs: seq<Node>): string
    decreases cs, 0
  {
    if cs == [] then ""
    else ChildrenText(cs[..|cs| - 1]) + JsString(PlainText(cs[|cs| - 1]))
  }

  /** `(format & mask) > 0` for the one-bit mask `2^b`, on the two's
      complement bits of `format`. */
  predicate HasBit(format: int, b: nat)
    requires b < 4
  {
    if b == 0 then format % 2 == 1
    else if b == 1 then (format / 2) % 2 == 1
    else if b == 2 then (format / 4) % 2 == 1
    else (format / 8) % 2 == 1
  }

  /** The chain of wraps of a text node: bold, then italic, then
      strikethrough, then underline, each around what is there so far. */
  function Wrap(text: Option<string>, format: int): Inline {
    var o0 := Bare(text);
    var o1 := if HasBit(format, 0) then Bold(o0) else o0;
    var o2 := if HasBit(format, 1) then Italic(o1) else o1;
    var o3 := if HasBit(format, 2) then Strike(o2) else o2;
    if HasBit(format, 3) then Underline(o3) else o3
  }

  /** `handleNode`; `None` where it throws, which a paragraph or root node
      without children does when it maps them. */
  function Render(n: Node): (r: Option<Inline>)
    decreases n, 1
  {
    if n.kind == "code" then Some(CodeEmbed(PlainText(n)))
    else if n.kind == "paragraph" || n.kind == "root" then
      match n.children
      case Absent => None
      case Present(cs) =>
        match RenderAll(cs)
        case None => None
        case Some(items) => Some(Paragraph(items))
    else if n.kind == "text" then Some(Wrap(n.text, n.format))
    else Some(Placeholder)
  }

  /** `children.map(handleNode)`, which throws when one child throws. */
  function RenderAll(cs: seq<Node>): (r: Option<seq<Inline>>)
    decreases cs, 0
  {
    if cs == [] then Some([])
    else
      match Render(cs[0])
      case None => None
      case Some(i) =>
        match RenderAll(cs[1..])
        case None => None
        case Some(rest) => Some([i] + rest)
  }

  /** `convertEditorData`: the rendering of the root node. */
  function ConvertEditorData(d: EditorData): Option<Inline> {
    Render(d.root)
  }

  /** Mapping over the children renders each child in place: the result
      exists exactly when every child renders, and then has one element per
      child, in order. */
  lemma {:induction false} RenderAllPointwise(cs: seq<Node>)
    ensures RenderAll(cs).Some? <==> forall i :: 0 <= i < |cs| ==> Render(cs[i]).Some?
    ensures RenderAll(cs).Some? ==>
      |RenderAll(cs).value| == |cs| &&
      forall i :: 0 <= i < |cs| ==> RenderAll(cs).value[i] == Render(cs[i]).value
  {
    if cs != [] {
      RenderAllPointwise(cs[1..]);
      assert forall i :: 1 <= i < |cs| ==> cs[1..][i - 1] == cs[i];
    }
  }

  /** A paragraph or root node renders as one paragraph holding the
      rendering of each child, in order; without children it throws. */
  lemma ParagraphKeepsChildren(n: Node)
    requires n.kind == "paragraph" || n.kind == "root"
    ensures n.children.Absent? ==> Render(n).None?
    ensures n.children.Present? && (forall i :: 0 <= i < |n.children.nodes| ==> Render(n.children.nodes[i]).Some?) ==>
      && Render(n).Some? && Render(n).value.Paragraph?
      && |Render(n).value.items| == |n.children.nodes|
      && forall i :: 0 <= i < |n.children.nodes| ==> Render(n).value.items[i] == Render(n.children.nodes[i]).value
  {
    if n.children.Present? {
      RenderAllPointwise(n.children.nodes);
    }
  }

  /** The text leaves of a tree, in order: a node without children is a
      leaf. */
  function Leaves(n: Node): seq<Option<string>>
    decreases n, 1
  {
    match n.children
    case Absent => [n.text]
    case Present(cs) => LeavesAll(cs)
  }

  function LeavesAll(cs: seq<Node>): seq<Option<string>>
    decreases cs, 0
  {
    if cs == [] then [] else LeavesAll(cs[..|cs| - 1]) + Leaves(cs[|cs| - 1])
  }

  /** The concatenation of leaf texts, an undefined one read as
      "undefined". */
  function JoinLeaves(ls: seq<Option<string>>): string {
    if ls == [] then "" else JoinLeaves(ls[..|ls| - 1]) + JsString(ls[|ls| - 1])
  }

  lemma {:induction false} JoinLeavesAppend(a: seq<Option<string>>, b: seq<Option<string>>)
    ensures JoinLeaves(a + b) == JoinLeaves(a) + JoinLeaves(b)
    decreases |b|
  {
    if b == [] {
      assert a + b == a;
    } else {
      var b', x := b[..|b| - 1], b[|b| - 1];
      assert (a + b)[..|a + b| - 1] == a + b';
      calc {
        JoinLeaves(a + b);
        JoinLeaves(a + b') + JsString(x);
        { JoinLeavesAppend(a, b'); }
        JoinLeaves(a) + JoinLeaves(b') + JsString(x);
      }
    }
  }

  /** The plain text of a node with children is the in-order concatenation
      of the texts of its leaves. */
  lemma {:induction false} PlainTextIsLeaves(n: Node)
    requires n.children.Present?
    ensures PlainText(n) == Some(JoinLeaves(Leaves(n)))
    decreases n, 1
  {
    ChildrenTextIsLeaves(n.children.nodes);
  }

  lemma {:induction false} ChildrenTextIsLeaves(cs: seq<Node>)
    ensures ChildrenText(cs) == JoinLeaves(LeavesAll(cs))
    decreases cs, 0
  {
    if cs != [] {
      var init, last := cs[..|cs| - 1], cs[|cs| - 1];
      ChildrenTextIsLeaves(init);
      JoinLeavesAppend(LeavesAll(init), Leaves(last));
      match last.children
      case Absent =>
        assert JoinLeaves(Leaves(last)) == "" + JsString(last.text) by {
          assert Leaves(last)[..0] == [];
        }
      case Present(_) =>
        PlainTextIsLeaves(last);
    }
  }

  /** A tree with every `format` cleared. */
  function Unformatted(n: Node): (u: Node)
    decreases n, 1
  {
    match n.children
    case Absent => n.(format := 0)
    case Present(cs) => n.(format := 0, children := Present(UnformattedAll(cs)))
  }

  function UnformattedAll(cs: seq<Node>): (us: seq<Node>)
    decreases cs, 0
  {
    if cs == [] then [] else UnformattedAll(cs[..|cs| - 1]) + [Unformatted(cs[|cs| - 1])]
  }

  /** A code node shows the plain text of its subtree, and formatting
      anywhere in that subtree makes no difference to it. */
  lemma {:induction false} CodeDiscardsFormatting(n: Node)
    requires n.kind == "code"
    ensures Render(n) == Some(CodeEmbed(PlainText(n)))
    ensures Render(Unformatted(n)) == Render(n)
  {
    PlainTextIgnoresFormat(n);
  }

  lemma {:induction false} PlainTextIgnoresFormat(n: Node)
    ensures PlainText(Unformatted(n)) == PlainText(n)
    decreases n, 1
  {
    if n.children.Present? {
      ChildrenTextIgnoresFormat(n.children.nodes);
    }
  }

  lemma {:induction false} ChildrenTextIgnoresFormat(cs: seq<Node>)
    ensures |UnformattedAll(cs)| == |cs|
    ensures ChildrenText(UnformattedAll(cs)) == ChildrenText(cs)
    decreases cs, 0
  {
    if cs != [] {
      var init, last := cs[..|cs| - 1], cs[|cs| - 1];
      ChildrenTextIgnoresFormat(init);
      PlainTextIgnoresFormat(last);
      var us := UnformattedAll(cs);
      assert us[..|us| - 1] == UnformattedAll(init);
      assert us[|us| - 1] == Unformatted(last);
    }
  }

  /** Only the four low bits of `format` matter. */
  lemma HasBitLowFour(format: int, b: nat)
    requires b < 4
    ensures HasBit(format, b) == HasBit(format % 16, b)
  {
    var q, r := format / 16, format % 16;
    assert format == 16 * q + r;
    HasBitShift(q, r, b);
  }

  /** Adding a multiple of 16 changes none of the four low bits. */
  lemma HasBitShift(q: int, r: int, b: nat)
    requires 0 <= r < 16 && b < 4
    ensures HasBit(16 * q + r, b) == HasBit(r, b)
  {
    if b == 0 {
      ParityOfSum(8 * q, r);
    } else if b == 1 {
      HalfOfSum(8 * q, r);
      ParityOfSum(4 * q, r / 2);
    } else if b == 2 {
      QuarterOfSum(4 * q, r);
      ParityOfSum(2 * q, r / 4);
    } else {
      EighthOfSum(2 * q, r);
      ParityOfSum(q, r / 8);
    }
  }

  /** Adding an even number leaves the parity alone. */
  lemma ParityOfSum(q: int, r: int)
    requires 0 <= r < 16
    ensures (2 * q + r) % 2 == r % 2
  {
  }

  /** Adding an even multiple of the divisor adds an even quotient. */
  lemma HalfOfSum(q: int, r: int)
    requires 0 <= r < 16
    ensures (2 * q + r) / 2 == q + r / 2
  {
  }

  lemma QuarterOfSum(q: int, r: int)
    requires 0 <= r < 16
    ensures (4 * q + r) / 4 == q + r / 4
  {
  }

  lemma EighthOfSum(q: int, r: int)
    requires 0 <= r < 16
    ensures (8 * q + r) / 8 == q + r / 8
  {
  }

  /** Bits above the fourth are ignored. */
  lemma WrapIgnoresHighBits(text: Option<string>, format: int)
    ensures Wrap(text, format) == Wrap(text, format % 16)
  {
    HasBitLowFour(format, 0);
    HasBitLowFour(format, 1);
    HasBitLowFour(format, 2);
    HasBitLowFour(format, 3);
  }

  /** The number of wraps around a text. */
  function Depth(i: Inline): nat {
    match i
    case Bold(x) => 1 + Depth(x)
    case Italic(x) => 1 + Depth(x)
    case Strike(x) => 1 + Depth(x)
    case Underline(x) => 1 + Depth(x)
    case _ => 0
  }

  /** The number of set bits of `x`. */
  function PopCount(x: nat): nat {
    if x == 0 then 0 else x % 2 + PopCount(x / 2)
  }

  /** The value of one bit of `format`, 0 or 1. */
  function BitValue(format: int, b: nat): nat
    requires b < 4
  {
    if HasBit(format, b) then 1 else 0
  }

  /** Each set bit adds one wrap. */
  lemma WrapDepthBits(text: Option<string>, format: int)
    ensures Depth(Wrap(text, format)) ==
      BitValue(format, 0) + BitValue(format, 1) + BitValue(format, 2) + BitValue(format, 3)
  {
    var o0 := Bare(text);
    var o1 := if HasBit(format, 0) then Bold(o0) else o0;
    assert Depth(o1) == BitValue(format, 0);
    var o2 := if HasBit(format, 1) then Italic(o1) else o1;
    assert Depth(o2) == Depth(o1) + BitValue(format, 1);
    var o3 := if HasBit(format, 2) then Strike(o2) else o2;
    assert Depth(o3) == Depth(o2) + BitValue(format, 2);
    assert Wrap(text, format) == if HasBit(format, 3) then Underline(o3) else o3;
  }

  /** The set bits of a four-bit value, counted one by one. */
  lemma PopCountFourBits(r: int)
    requires 0 <= r < 16
    ensures PopCount(r) == BitValue(r, 0) + BitValue(r, 1) + BitValue(r, 2) + BitValue(r, 3)
  {
    var a := r / 2;
    var b := a / 2;
    var c := b / 2;
    HalvingChain(r);
    assert PopCount(c) == c % 2 + PopCount(0);
    assert PopCount(b) == b % 2 + PopCount(c);
    assert PopCount(a) == a % 2 + PopCount(b);
    assert PopCount(r) == r % 2 + PopCount(a);
    assert BitValue(r, 0) == r % 2 && BitValue(r, 1) == a % 2;
    assert BitValue(r, 2) == b % 2 && BitValue(r, 3) == c % 2;
  }

  /** Halving twice is dividing by four, three times by eight. */
  lemma HalvingChain(r: int)
    requires 0 <= r < 16
    ensures r / 2 / 2 == r / 4 && r / 2 / 2 / 2 == r / 8 && r / 8 / 2 == 0
  {
    var a := r / 2;
    assert r == 2 * a + r % 2;
    var b := a / 2;
    assert a == 2 * b + a % 2;
  }

  /** A text node is wrapped once per set bit among the four low bits of
      its format. */
  lemma WrapDepth(text: Option<string>, format: int)
    ensures Depth(Wrap(text, format)) == PopCount(format % 16)
  {
    WrapIgnoresHighBits(text, format);
    WrapDepthBits(text, format % 16);
    PopCountFourBits(format % 16);
  }

  /** Format 0 (or any multiple of 16) renders the bare text. */
  lemma FormatZeroIsBareText(text: Option<string>, format: int)
    requires format % 16 == 0
    ensures Wrap(text, format) == Bare(text)
  {
    WrapIgnoresHighBits(text, format);
  }

  /** Bold is innermost and underline outermost. */
  lemma WrapNesting(text: Option<string>)
    ensures Wrap(text, 1) == Bold(Bare(text))
    ensures Wrap(text, 3) == Italic(Bold(Bare(text)))
    ensures Wrap(text, 12) == Underline(Strike(Bare(text)))
    ensures Wrap(text, 15) == Underline(Strike(Italic(Bold(Bare(text)))))
  {
  }

  /** The format tags of the wraps around an element, outermost first, as
      their bits: underline 3, strike 2, italic 1, bold 0. */
  function Tags(i: Inline): seq<nat> {
    match i
    case Bold(x) => [0] + Tags(x)
    case Italic(x) => [1] + Tags(x)
    case Strike(x) => [2] + Tags(x)
    case Underline(x) => [3] + Tags(x)
    case _ => []
  }

  /** The element inside all format wraps. */
  function Core(i: Inline): Inline {
    match i
    case Bold(x) => Core(x)
    case Italic(x) => Core(x)
    case Strike(x) => Core(x)
    case Underline(x) => Core(x)
    case _ => i
  }

  /** The wrap `handleNode` adds for bit `k` when `on`. */
  function Layer(x: Inline, k: nat, on: bool): Inline
    requires k < 4
  {
    if !on then x
    else if k == 0 then Bold(x)
    else if k == 1 then Italic(x)
    else if k == 2 then Strike(x)
    else Underline(x)
  }

  predicate Descending(tags: seq<nat>) {
    forall a, b :: 0 <= a < b < |tags| ==> tags[a] > tags[b]
  }

  predicate AllBelow(tags: seq<nat>, k: nat) {
    forall a :: 0 <= a < |tags| ==> tags[a] < k
  }

  /** Adding the wrap for bit `k` around wraps of lower bits keeps the tags
      descending, adds exactly `k`, keeps the innermost tag and the core. */
  lemma LayerStep(x: Inline, k: nat, on: bool)
    requires k < 4 && Descending(Tags(x)) && AllBelow(Tags(x), k)
    ensures Descending(Tags(Layer(x, k, on))) && AllBelow(Tags(Layer(x, k, on)), k + 1)
    ensures forall j :: j in Tags(Layer(x, k, on)) <==> j in Tags(x) || (on && j == k)
    ensures Core(Layer(x, k, on)) == Core(x)
  {
    if on {
      var tags := Tags(Layer(x, k, on));
      assert tags == [k] + Tags(x);
      assert forall a :: 0 < a < |tags| ==> tags[a] == Tags(x)[a - 1];
    }
  }

  /** The four wraps of `handleNode` for the bits `b0` (bold) to `b3`
      (underline). */
  function Layers(text: Option<string>, b0: bool, b1: bool, b2: bool, b3: bool): Inline {
    Layer(Layer(Layer(Layer(Bare(text), 0, b0), 1, b1), 2, b2), 3, b3)
  }

  /** The wraps are in strictly descending bit order from the outside in,
      around the bare text. */
  lemma LayersOrdered(text: Option<string>, b0: bool, b1: bool, b2: bool, b3: bool)
    ensures Descending(Tags(Layers(text, b0, b1, b2, b3)))
    ensures Core(Layers(text, b0, b1, b2, b3)) == Bare(text)
  {
    var o0 := Bare(text);
    var o1 := Layer(o0, 0, b0);
    var o2 := Layer(o1, 1, b1);
    var o3 := Layer(o2, 2, b2);
    assert Layers(text, b0, b1, b2, b3) == Layer(o3, 3, b3);
    assert Tags(o0) == [] && Core(o0) == o0;
    LayerStep(o0, 0, b0);
    LayerStep(o1, 1, b1);
    LayerStep(o2, 2, b2);
    LayerStep(o3, 3, b3);
  }

  /** The wraps are exactly the chosen bits. */
  lemma LayersChosen(text: Option<string>, b0: bool, b1: bool, b2: bool, b3: bool)
    ensures forall k :: k in Tags(Layers(text, b0, b1, b2, b3)) <==>
      (k == 0 && b0) || (k == 1 && b1) || (k == 2 && b2) || (k == 3 && b3)
  {
    var o0 := Bare(text);
    var o1 := Layer(o0, 0, b0);
    var o2 := Layer(o1, 1, b1);
    var o3 := Layer(o2, 2, b2);
    assert Layers(text, b0, b1, b2, b3) == Layer(o3, 3, b3);
    assert Tags(o0) == [] && Core(o0) == o0;
    LayerStep(o0, 0, b0);
    LayerStep(o1, 1, b1);
    LayerStep(o2, 2, b2);
    LayerStep(o3, 3, b3);
  }

  /** In a descending tag list that holds bit 0, bit 0 comes last. */
  lemma ZeroLast(tags: seq<nat>)
    requires Descending(tags) && 0 in tags
    ensures tags[|tags| - 1] == 0
  {
    var a :| 0 <= a < |tags| && tags[a] == 0;
    if a < |tags| - 1 {
      assert tags[a] > tags[|tags| - 1];
    }
  }

  /** For every format: the wraps are exactly the set bits of `format & 15`,
      each once, in strictly descending bit order from the outside in, so
      underline is outermost and bold innermost whenever present; inside
      them is the bare text. */
  lemma WrapLayers(text: Option<string>, format: int)
    ensures Descending(Tags(Wrap(text, format)))
    ensures forall k :: k in Tags(Wrap(text, format)) <==> k < 4 && HasBit(format, k)
    ensures Core(Wrap(text, format)) == Bare(text)
    ensures HasBit(format, 3) ==> Wrap(text, format).Underline?
    ensures HasBit(format, 0) ==> Tags(Wrap(text, format))[|Tags(Wrap(text, format))| - 1] == 0
  {
    var b0, b1, b2, b3 := HasBit(format, 0), HasBit(format, 1), HasBit(format, 2), HasBit(format, 3);
    assert Wrap(text, format) == Layers(text, b0, b1, b2, b3);
    LayersOrdered(text, b0, b1, b2, b3);
    LayersChosen(text, b0, b1, b2, b3);
    if b0 {
      ZeroLast(Tags(Wrap(text, format)));
    }
    forall k ensures k < 4 && HasBit(format, k) <==> (k == 0 && b0) || (k == 1 && b1) || (k == 2 && b2) || (k == 3 && b3) {
    }
  }

  /** What React displays for a possibly undefined string child or prop:
      nothing for `undefined`. */
  function Displayed(s: Option<string>): string {
    match s
    case None => ""
    case Some(v) => v
  }

  /** The text an element shows: a code embed its code, a paragraph the
      texts of its items one after another, a wrap the text inside it. */
  function TextOf(i: Inline): string
    decreases i, 1
  {
    match i
    case CodeEmbed(c) => Displayed(c)
    case Paragraph(items) => TextOfAll(items)
    case Bare(t) => Displayed(t)
    case Bold(x) => TextOf(x)
    case Italic(x) => TextOf(x)
    case Strike(x) => TextOf(x)
    case Underline(x) => TextOf(x)
    case Placeholder => ""
  }

  function TextOfAll(items: seq<Inline>): string
    decreases items, 0
  {
    if items == [] then "" else TextOfAll(items[..|items| - 1]) + TextOf(items[|items| - 1])
  }

  /** A tree made only of the node kinds the renderer knows, in the shape
      each expects: a text node is a leaf, a paragraph or root node has
      children, all of them well shaped. */
  predicate WellShaped(n: Node)
    decreases n, 1
  {
    if n.kind == "code" then true
    else if n.kind == "paragraph" || n.kind == "root" then
      n.children.Present? && AllWellShaped(n.children.nodes)
    else n.kind == "text" && n.children.Absent?
  }

  predicate AllWellShaped(cs: seq<Node>)
    decreases cs, 0
  {
    forall i :: 0 <= i < |cs| ==> WellShaped(cs[i])
  }

  /** A tree whose plain text involves no undefined `text`: a code node
      has children or a text, and elsewhere every node without children
      has a text. */
  predicate Defined(n: Node)
    decreases n, 1
  {
    if n.kind == "code" then PlainText(n).Some?
    else
      match n.children
      case Absent => n.text.Some?
      case Present(cs) => AllDefined(cs)
  }

  predicate AllDefined(cs: seq<Node>)
    decreases cs, 0
  {
    forall i :: 0 <= i < |cs| ==> Defined(cs[i])
  }

  /** Formatting changes how a text is shown, never the text. */
  lemma WrapKeepsText(text: Option<string>, format: int)
    ensures TextOf(Wrap(text, format)) == Displayed(text)
  {
    var o0 := Bare(text);
    var o1 := if HasBit(format, 0) then Bold(o0) else o0;
    assert TextOf(o1) == TextOf(o0);
    var o2 := if HasBit(format, 1) then Italic(o1) else o1;
    assert TextOf(o2) == TextOf(o1);
    var o3 := if HasBit(format, 2) then Strike(o2) else o2;
    assert TextOf(o3) == TextOf(o2);
    assert Wrap(text, format) == if HasBit(format, 3) then Underline(o3) else o3;
  }

  /** Two sequences of equal length whose elements agree pointwise on
      their text have the same concatenated text. */
  lemma {:induction false} TextOfAllPointwise(items: seq<Inline>, cs: seq<Node>)
    requires |items| == |cs|
    requires forall i :: 0 <= i < |cs| ==> TextOf(items[i]) == JsString(PlainText(cs[i]))
    ensures TextOfAll(items) == ChildrenText(cs)
    decreases |cs|
  {
    if cs != [] {
      var k := |cs| - 1;
      assert forall i :: 0 <= i < k ==> items[..k][i] == items[i] && cs[..k][i] == cs[i];
      TextOfAllPointwise(items[..k], cs[..k]);
    }
  }

  /** Rendering a well-shaped tree never throws, and when no undefined text
      is involved the rendered elements show exactly the tree's plain text:
      `handleNode` and `handleAsPlainText` agree on every text. */
  lemma {:induction false} RenderKeepsText(n: Node)
    requires WellShaped(n)
    ensures Render(n).Some?
    ensures Defined(n) ==> TextOf(Render(n).value) == JsString(PlainText(n))
    decreases n, 1
  {
    if n.kind == "code" {
    } else if n.kind == "paragraph" || n.kind == "root" {
      RenderAllKeepsText(n.children.nodes);
    } else {
      WrapKeepsText(n.text, n.format);
    }
  }

  lemma {:induction false} RenderAllKeepsText(cs: seq<Node>)
    requires AllWellShaped(cs)
    ensures RenderAll(cs).Some?
    ensures AllDefined(cs) ==> TextOfAll(RenderAll(cs).value) == ChildrenText(cs)
    decreases cs, 0
  {
    forall i | 0 <= i < |cs|
      ensures Render(cs[i]).Some?
      ensures Defined(cs[i]) ==> TextOf(Render(cs[i]).value) == JsString(PlainText(cs[i]))
    {
      RenderKeepsText(cs[i]);
    }
    RenderAllPointwise(cs);
    if AllDefined(cs) {
      TextOfAllPointwise(RenderAll(cs).value, cs);
    }
  }

  /** The converted document shows the plain text of its root. */
  lemma ConvertKeepsText(d: EditorData)
    requires WellShaped(d.root)
    ensures ConvertEditorData(d).Some?
    ensures Defined(d.root) ==> TextOf(ConvertEditorData(d).value) == JsString(PlainText(d.root))
  {
    RenderKeepsText(d.root);
  }

  /** A text node without `text` shows nothing, while the plain-text fold
      turns it into the word "undefined": the paragraph holding it shows ""
      but its plain text is "undefined". */
  lemma UndefinedTextShowsNothing()
    ensures var leaf := Node("text", Absent, None, 0);
      var p := Node("paragraph", Present([leaf]), None, 0);
      && Render(p) == Some(Paragraph([Bare(None)]))
      && TextOf(Render(p).value) == ""
      && PlainText(p) == Some("undefined")
  {
    var leaf := Node("text", Absent, None, 0);
    var p := Node("paragraph", Present([leaf]), None, 0);
    assert Wrap(None, 0) == Bare(None) by { FormatZeroIsBareText(None, 0); }
    assert Render(leaf) == Some(Bare(None)) by {
      assert leaf.kind != "code" && leaf.kind != "paragraph" && leaf.kind != "root";
    }
    assert RenderAll([leaf]) == Some([Bare(None)]) by {
      assert [leaf][0] == leaf && [leaf][1..] == [];
      assert RenderAll([]) == Some([]);
      assert [Bare(None)] + [] == [Bare(None)];
    }
    assert TextOfAll([Bare(None)]) == TextOfAll([]) + TextOf(Bare(None));
    assert ChildrenText([leaf]) == "undefined" by {
      assert [leaf][..0] == [] && PlainText(leaf) == None;
      assert ChildrenText([leaf]) == ChildrenText([]) + JsString(None);
    }
  }
}
