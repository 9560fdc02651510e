/** The normalizer plugin: an editor whose root has lost all its children gets
    one empty paragraph back; every other node is left to the normalizer the
    plugin wraps. */
module Normalize {
  import opened Wrappers
  import opened Document

  /** The node being normalized: the editor root, or an element or text below it. */
  datatype Entry = EditorRoot | Descendant(path: seq<nat>)

  /** What one normalization pass does: hand the node to the wrapped normalizer,
      or insert a node and return. */
  datatype Outcome = Delegated | Inserted(children: seq<Block>)

  /** The paragraph inserted into an empty editor: one text run, empty and unmarked. */
  function EmptyParagraph(): (b: Block)
    ensures WellFormedBlock(b)
  {
    Single(Para("paragraph", None, [Text("", map[])]))
  }

  /** `Transforms.insertNodes(editor, node, { at: [0] })` on the root's children. */
  function InsertAtFront(children: seq<Block>, b: Block): (r: seq<Block>)
    ensures |r| == |children| + 1 && r[0] == b && r[1..] == children
  {
    [b] + children
  }

  /** The plugin's `normalizeNode`, given the node and, for the root, its children. */
  function NormalizeNode(entry: Entry, children: seq<Block>): (r: Outcome)
    ensures r.Delegated? <==> (entry.Descendant? || |children| > 0)
  {
    if entry.Descendant? || |children| > 0 then Delegated
    else Inserted(InsertAtFront(children, EmptyParagraph()))
  }

  /** The root's children after one pass: the wrapped normalizer is not modelled,
      so a delegated pass leaves them as they are. */
  function RootAfter(children: seq<Block>): seq<Block>
  {
    match NormalizeNode(EditorRoot, children)
    case Delegated => children
    case Inserted(c) => c
  }

  /** After a pass over the root, the root has at least one child. */
  lemma RootNeverEmpty(children: seq<Block>)
    ensures |RootAfter(children)| > 0
    ensures |children| > 0 ==> RootAfter(children) == children
  {
  }

  /** An empty root is repaired into a document of exactly one lowest block:
      an empty, unmarked paragraph outside any list. */
  lemma RepairedDocument(children: seq<Block>)
    requires |children| == 0
    ensures RootAfter(children) == [Single(Para("paragraph", None, [Text("", map[])]))]
    ensures Slots(RootAfter(children)) == [Slot(Para("paragraph", None, [Text("", map[])]), None)]
  {
    SlotsCons(EmptyParagraph(), []);
  }

  /** A second pass over the repaired root does nothing more: it delegates. */
  lemma NormalizeIdempotent(children: seq<Block>)
    ensures NormalizeNode(EditorRoot, RootAfter(children)).Delegated?
    ensures RootAfter(RootAfter(children)) == RootAfter(children)
  {
    RootNeverEmpty(children);
  }

  /** The repair keeps a well-formed tree well-formed. */
  lemma NormalizeKeepsWellFormed(children: seq<Block>)
    requires WellFormed(children)
    ensures WellFormed(RootAfter(children))
  {
    if |children| == 0 {
      WellFormedAppend([EmptyParagraph()], children);
    }
  }
}
