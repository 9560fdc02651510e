/** The editor's document tree, in the shape the formatting toolbar produces:
    the root holds a sequence of top-level blocks; a top-level block is either a
    lowest block (a paragraph, heading, quote or list item holding text runs) or a
    list container holding lowest blocks. */
module Document {
  import opened Wrappers

  /** A format name as the toolbar passes it ("bold", "heading-one", "left", ...). */
  type Format = string

  /** The formats that set the `align` attribute rather than `type`. */
  const TextAlignTypes: seq<Format> := ["left", "center", "right", "justify"]

  /** The formats that are list containers. */
  const ListTypes: seq<Format> := ["numbered-list", "bulleted-list"]

  predicate IsAlignFormat(f: Format) { f in TextAlignTypes }

  predicate IsListFormat(f: Format) { f in ListTypes }

  /** A text run: its characters and its marks; an absent mark means false. */
  datatype Text = Text(text: string, marks: map<string, bool>)

  /** A lowest block element: its `type`, its optional `align`, and its text runs. */
  datatype Para = Para(kind: Format, align: Option<Format>, texts: seq<Text>)

  /** The attributes of a container element. */
  datatype Head = Head(kind: Format, align: Option<Format>)

  /** A child of the editor root. */
  datatype Block = Single(para: Para) | Group(head: Head, items: seq<Para>)

  /** One lowest block in document order, with the container around it (if any).
      A selection addresses slots, and every transform is specified on them. */
  datatype Slot = Slot(para: Para, group: Option<Head>)

  function BlockSlots(b: Block): seq<Slot>
  {
    match b
    case Single(p) => [Slot(p, None)]
    case Group(h, items) => seq(|items|, i requires 0 <= i < |items| => Slot(items[i], Some(h)))
  }

  /** The number of lowest blocks in a top-level block. */
  function Size(b: Block): nat
  {
    |BlockSlots(b)|
  }

  /** The lowest blocks of a document, in document order. */
  function Slots(doc: seq<Block>): seq<Slot>
  {
    if doc == [] then [] else BlockSlots(doc[0]) + Slots(doc[1..])
  }

  lemma {:induction false} SlotsAppend(a: seq<Block>, b: seq<Block>)
    ensures Slots(a + b) == Slots(a) + Slots(b)
  {
    if a == [] {
      assert a + b == b;
    } else {
      assert (a + b)[1..] == a[1..] + b;
      SlotsAppend(a[1..], b);
    }
  }

  lemma SlotsCons(b: Block, rest: seq<Block>)
    ensures Slots([b] + rest) == BlockSlots(b) + Slots(rest)
  {
    assert ([b] + rest)[1..] == rest;
  }

  /** A document made only of lowest blocks has one slot per block, outside any container. */
  lemma {:induction false} SinglesSlots(bs: seq<Block>)
    requires forall i :: 0 <= i < |bs| ==> bs[i].Single?
    ensures |Slots(bs)| == |bs|
    ensures forall i :: 0 <= i < |bs| ==> Slots(bs)[i] == Slot(bs[i].para, None)
  {
    if bs != [] {
      SinglesSlots(bs[1..]);
    }
  }

  /** A lowest block never has a list kind and always holds at least one text run. */
  predicate WellFormedPara(p: Para)
  {
    !IsListFormat(p.kind) && |p.texts| > 0
  }

  /** A container is a non-empty list without an alignment of its own. */
  predicate WellFormedBlock(b: Block)
  {
    match b
    case Single(p) => WellFormedPara(p)
    case Group(h, items) =>
      && IsListFormat(h.kind)
      && h.align.None?
      && |items| > 0
      && forall i :: 0 <= i < |items| ==> WellFormedPara(items[i])
  }

  predicate WellFormed(doc: seq<Block>)
  {
    forall i :: 0 <= i < |doc| ==> WellFormedBlock(doc[i])
  }

  predicate WellFormedSlot(s: Slot)
  {
    && WellFormedPara(s.para)
    && (s.group.Some? ==> IsListFormat(s.group.value.kind) && s.group.value.align.None?)
  }

  /** What well-formedness says about every lowest block of the document. */
  lemma {:induction false} WellFormedSlots(doc: seq<Block>)
    requires WellFormed(doc)
    ensures forall j :: 0 <= j < |Slots(doc)| ==> WellFormedSlot(Slots(doc)[j])
  {
    if doc != [] {
      WellFormedSlots(doc[1..]);
      var s0, s1 := BlockSlots(doc[0]), Slots(doc[1..]);
      assert WellFormedBlock(doc[0]);
      forall j | 0 <= j < |s0 + s1| ensures WellFormedSlot((s0 + s1)[j]) {
        if j >= |s0| {
          assert (s0 + s1)[j] == s1[j - |s0|];
        }
      }
    }
  }

  lemma WellFormedAppend(a: seq<Block>, b: seq<Block>)
    requires WellFormed(a) && WellFormed(b)
    ensures WellFormed(a + b)
  {
  }
}
