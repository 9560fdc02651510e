/** The editor object the page builds: its children, selection and pending marks
    are fields that the toolbar's commands and the normalizer change in place.
    Each method is proved to leave the editor in the state the corresponding
    function of Formatting or Normalize describes, and to keep the invariant. */
module EditorModel {
  import opened Wrappers
  import opened Document
  import opened SlateTransforms
  import opened Formatting
  import Normalize

  class Editor {
    var children: seq<Block>
    var selection: Option<Selection>
    var marks: Option<map<string, bool>>

    /** The editor's state as a value. */
    function State(): EditorState
      reads this
    {
      EditorState(children, selection, marks)
    }

    ghost predicate Valid()
      reads this
    {
      ValidState(State())
    }

    /** A fresh editor: no children, no selection, no pending marks. */
    constructor()
      ensures children == [] && selection.None? && marks.None?
      ensures Valid()
    {
      children := [];
      selection := None;
      marks := None;
    }

    /** The plugin's `normalizeNode`: returns whether the node was handed to the
        wrapped normalizer; otherwise the empty root got its paragraph. */
    method NormalizeNode(entry: Normalize.Entry) returns (delegated: bool)
      modifies this
      ensures delegated == Normalize.NormalizeNode(entry, old(children)).Delegated?
      ensures entry.EditorRoot? ==> children == Normalize.RootAfter(old(children))
      ensures entry.Descendant? ==> children == old(children)
      ensures selection == old(selection) && marks == old(marks)
      ensures old(Valid()) ==> Valid()
    {
      if entry.Descendant? || |children| > 0 {
        return true;
      }
      Normalize.NormalizeKeepsWellFormed(children);
      children := Normalize.InsertAtFront(children, Normalize.EmptyParagraph());
      SlotsCons(Normalize.EmptyParagraph(), []);
      delegated := false;
    }

    /** `Editor.addMark(editor, key, true)`. */
    method AddMark(key: string)
      requires SelectionFits(State())
      modifies this
      ensures State() == Formatting.AddMark(old(State()), key)
      ensures old(Valid()) ==> Valid()
    {
      if Valid() {
        MarkOpsKeepValid(State(), key);
      }
      if selection.None? {
        return;
      }
      var sel := selection.value;
      if sel.Span? {
        children := SetNodes(children, 0, sel.Lo(), sel.Hi(), MarkFn(key));
      } else {
        marks := Some(ResolvedMarks(State()).value[key := true]);
      }
    }

    /** `Editor.removeMark(editor, key)`. */
    method RemoveMark(key: string)
      requires SelectionFits(State())
      modifies this
      ensures State() == Formatting.RemoveMark(old(State()), key)
      ensures old(Valid()) ==> Valid()
    {
      if Valid() {
        MarkOpsKeepValid(State(), key);
      }
      if selection.None? {
        return;
      }
      var sel := selection.value;
      if sel.Span? {
        children := SetNodes(children, 0, sel.Lo(), sel.Hi(), UnmarkFn(key));
      } else {
        marks := Some(ResolvedMarks(State()).value - {key});
      }
    }

    /** `toggleMark`: reads whether the mark is active, then removes or adds it.
        With a selection, the mark's active state flips. */
    method ToggleMark(format: string)
      requires Valid()
      modifies this
      ensures State() == Formatting.ToggleMark(old(State()), format)
      ensures Valid()
      ensures selection.Some? ==> IsMarkActive(State(), format) == !IsMarkActive(old(State()), format)
    {
      MarkOpsKeepValid(State(), format);
      if selection.Some? {
        ToggleMarkFlips(State(), format);
      }
      var isActive := IsMarkActive(State(), format);
      if isActive {
        RemoveMark(format);
      } else {
        AddMark(format);
      }
    }

    /** `toggleBlock`: unwraps the selected list items, sets the new properties,
        and wraps the selection in a new list when a list format is turned on. */
    method ToggleBlock(format: Format)
      requires Valid()
      modifies this
      ensures State() == Formatting.ToggleBlock(old(State()), format)
      ensures Valid()
    {
      if selection.None? {
        return;
      }
      ToggleBlockSlots(State(), format);
      var isActive := IsBlockActive(State(), format, BlockAttr(format));
      var isList := IsListFormat(format);
      var lo, hi := selection.value.Lo(), selection.value.Hi();
      children := UnwrapNodes(children, 0, lo, hi, format);
      children := SetNodes(children, 0, lo, hi, ApplyProps(NewProperties(format, isActive)));
      if !isActive && isList {
        children := WrapNodes(children, 0, lo, hi, Head(format, None));
      }
    }
  }
}
