/** The toolbar's formatting commands: whether a mark or a block format is
    active at the selection, and the toggles that flip them. The editor state
    they read and write is a value here; EditorModel.Editor holds it in fields
    and runs the toggles step by step. */
module Formatting {
  import opened Wrappers
  import opened Document
  import opened SlateTransforms

  /** A selection over the lowest blocks of the document: a caret inside one of
      them, or an expanded range whose anchor may come after its focus. */
  datatype Selection = Caret(at: nat) | Span(anchor: nat, focus: nat)
  {
    /** The first lowest block of the (unhung) range. */
    function Lo(): nat
    {
      match this
      case Caret(p) => p
      case Span(a, f) => if a <= f then a else f
    }

    /** The last lowest block of the (unhung) range. */
    function Hi(): nat
    {
      match this
      case Caret(p) => p
      case Span(a, f) => if a <= f then f else a
    }
  }

  /** The editor's children, its selection, and its pending marks (`editor.marks`). */
  datatype EditorState = EditorState(children: seq<Block>, selection: Option<Selection>, marks: Option<map<string, bool>>)

  predicate SelectionFits(st: EditorState)
  {
    st.selection.Some? ==> st.selection.value.Hi() < |Slots(st.children)|
  }

  /** The editor's invariant: a well-formed tree, a selection inside it, and no
      pending marks under an expanded selection (Slate drops pending marks
      whenever the selection moves). */
  predicate ValidState(st: EditorState)
  {
    && WellFormed(st.children)
    && SelectionFits(st)
    && (st.selection.Some? && st.selection.value.Span? ==> st.marks.None?)
  }

  // ---------------------------------------------------------------------------
  // Marks

  /** A mark counts as set only when its entry is present and true. */
  predicate MarkOn(m: map<string, bool>, key: string)
  {
    key in m && m[key]
  }

  /** The marks of the first text run of a lowest block. */
  function LeadMarks(p: Para): map<string, bool>
  {
    if |p.texts| == 0 then map[] else p.texts[0].marks
  }

  /** `Editor.marks`: nothing without a selection, the pending marks when there
      are some, otherwise the marks of the first text run of the selection. */
  function ResolvedMarks(st: EditorState): (r: Option<map<string, bool>>)
    requires SelectionFits(st)
    ensures r.None? <==> st.selection.None?
  {
    if st.selection.None? then None
    else if st.marks.Some? then st.marks
    else Some(LeadMarks(Slots(st.children)[st.selection.value.Lo()].para))
  }

  /** `isMarkActive`: the resolved marks exist and hold `format` set to true. */
  function IsMarkActive(st: EditorState, format: string): (r: bool)
    requires SelectionFits(st)
    ensures st.selection.None? ==> !r
    ensures st.selection.Some? && st.marks.Some? ==> (r <==> MarkOn(st.marks.value, format))
    ensures st.selection.Some? && st.marks.None? ==>
      (r <==> MarkOn(LeadMarks(Slots(st.children)[st.selection.value.Lo()].para), format))
  {
    var m := ResolvedMarks(st);
    m.Some? && format in m.value && m.value[format]
  }

  function MarkTexts(p: Para, key: string): Para
  {
    p.(texts := seq(|p.texts|, i requires 0 <= i < |p.texts| => p.texts[i].(marks := p.texts[i].marks[key := true])))
  }

  function UnmarkTexts(p: Para, key: string): Para
  {
    p.(texts := seq(|p.texts|, i requires 0 <= i < |p.texts| => p.texts[i].(marks := p.texts[i].marks - {key})))
  }

  function MarkFn(key: string): Para -> Para { (p: Para) => MarkTexts(p, key) }

  function UnmarkFn(key: string): Para -> Para { (p: Para) => UnmarkTexts(p, key) }

  /** `Editor.addMark(editor, key, true)`: on an expanded selection every text run
      of the range gets the mark, where it stands (no block is split, merged,
      added or removed); on a caret the pending marks become the
      resolved marks plus the mark; without a selection nothing happens. */
  function AddMark(st: EditorState, key: string): (r: EditorState)
    requires SelectionFits(st)
    ensures r.selection == st.selection && |Slots(r.children)| == |Slots(st.children)|
    ensures st.selection.None? ==> r == st
    ensures st.selection.Some? && st.selection.value.Span? ==>
      r.marks == st.marks && SameShape(st.children, r.children) &&
      UpdatedOn(Slots(st.children), Slots(r.children), 0, st.selection.value.Lo(), st.selection.value.Hi(), OnPara(MarkFn(key)))
    ensures st.selection.Some? && st.selection.value.Caret? ==>
      r.children == st.children && r.marks == Some(ResolvedMarks(st).value[key := true])
  {
    if st.selection.None? then st
    else if st.selection.value.Span? then
      SetNodesSlots(st.children, 0, st.selection.value.Lo(), st.selection.value.Hi(), MarkFn(key));
      st.(children := SetNodes(st.children, 0, st.selection.value.Lo(), st.selection.value.Hi(), MarkFn(key)))
    else st.(marks := Some(ResolvedMarks(st).value[key := true]))
  }

  /** `Editor.removeMark(editor, key)`, with the same three cases. */
  function RemoveMark(st: EditorState, key: string): (r: EditorState)
    requires SelectionFits(st)
    ensures r.selection == st.selection && |Slots(r.children)| == |Slots(st.children)|
    ensures st.selection.None? ==> r == st
    ensures st.selection.Some? && st.selection.value.Span? ==>
      r.marks == st.marks && SameShape(st.children, r.children) &&
      UpdatedOn(Slots(st.children), Slots(r.children), 0, st.selection.value.Lo(), st.selection.value.Hi(), OnPara(UnmarkFn(key)))
    ensures st.selection.Some? && st.selection.value.Caret? ==>
      r.children == st.children && r.marks == Some(ResolvedMarks(st).value - {key})
  {
    if st.selection.None? then st
    else if st.selection.value.Span? then
      SetNodesSlots(st.children, 0, st.selection.value.Lo(), st.selection.value.Hi(), UnmarkFn(key));
      st.(children := SetNodes(st.children, 0, st.selection.value.Lo(), st.selection.value.Hi(), UnmarkFn(key)))
    else st.(marks := Some(ResolvedMarks(st).value - {key}))
  }

  /** `toggleMark`. */
  function ToggleMark(st: EditorState, format: string): (r: EditorState)
    requires SelectionFits(st)
    ensures r.selection == st.selection && SelectionFits(r)
  {
    if IsMarkActive(st, format) then RemoveMark(st, format) else AddMark(st, format)
  }

  lemma MarkFnsKeepWellFormed(key: string)
    ensures forall p :: WellFormedPara(p) ==> WellFormedPara(MarkFn(key)(p))
    ensures forall p :: WellFormedPara(p) ==> WellFormedPara(UnmarkFn(key)(p))
  {
  }

  /** Adding or removing a mark keeps the invariant, the selection and the tree's
      shape; on an expanded selection it rewrites the marks of the covered text
      runs and nothing else. */
  lemma MarkOpsKeepValid(st: EditorState, key: string)
    requires ValidState(st)
    ensures ValidState(AddMark(st, key)) && AddMark(st, key).selection == st.selection
    ensures ValidState(RemoveMark(st, key)) && RemoveMark(st, key).selection == st.selection
    ensures |Slots(AddMark(st, key).children)| == |Slots(st.children)|
    ensures |Slots(RemoveMark(st, key).children)| == |Slots(st.children)|
  {
    if st.selection.Some? && st.selection.value.Span? {
      var lo, hi := st.selection.value.Lo(), st.selection.value.Hi();
      MarkFnsKeepWellFormed(key);
      SetNodesSlots(st.children, 0, lo, hi, MarkFn(key));
      SetNodesSlots(st.children, 0, lo, hi, UnmarkFn(key));
      SetNodesWellFormed(st.children, 0, lo, hi, MarkFn(key));
      SetNodesWellFormed(st.children, 0, lo, hi, UnmarkFn(key));
    }
  }

  /** Toggling a mark flips whether it is active, whenever there is a selection. */
  lemma ToggleMarkFlips(st: EditorState, format: string)
    requires ValidState(st) && st.selection.Some?
    ensures ValidState(ToggleMark(st, format))
    ensures ToggleMark(st, format).selection == st.selection
    ensures IsMarkActive(ToggleMark(st, format), format) == !IsMarkActive(st, format)
  {
    MarkOpsKeepValid(st, format);
    var sel := st.selection.value;
    if sel.Span? {
      var lo, hi := sel.Lo(), sel.Hi();
      var s := Slots(st.children);
      assert WellFormedSlot(s[lo]) by { WellFormedSlots(st.children); }
      if IsMarkActive(st, format) {
        SetNodesSlots(st.children, 0, lo, hi, UnmarkFn(format));
        assert Slots(ToggleMark(st, format).children)[lo] == OnPara(UnmarkFn(format))(s[lo]);
      } else {
        SetNodesSlots(st.children, 0, lo, hi, MarkFn(format));
        assert Slots(ToggleMark(st, format).children)[lo] == OnPara(MarkFn(format))(s[lo]);
      }
    }
  }

  /** On a caret, toggling twice leaves the document alone and restores the mark
      state of every mark name: the pending marks become the resolved marks, except
      that an entry that was explicitly false is now absent. */
  lemma ToggleMarkTwiceOnCaret(st: EditorState, format: string)
    requires ValidState(st) && st.selection.Some? && st.selection.value.Caret?
    ensures
      var twice := ToggleMark(ToggleMark(st, format), format);
      var m := ResolvedMarks(st).value;
      && twice.children == st.children
      && twice.selection == st.selection
      && twice.marks == Some(if format in m && !m[format] then m - {format} else m)
      && forall key :: MarkOn(twice.marks.value, key) == MarkOn(m, key)
  {
    ToggleMarkFlips(st, format);
    var m := ResolvedMarks(st).value;
    var once := ToggleMark(st, format);
    var twice := ToggleMark(once, format);
    if MarkOn(m, format) {
      assert once.marks == Some(m - {format});
      assert twice.marks == Some((m - {format})[format := true]);
      assert (m - {format})[format := true] == m;
    } else {
      assert once.marks == Some(m[format := true]);
      assert twice.marks == Some(m[format := true] - {format});
      if format in m {
        assert m[format := true] - {format} == m - {format};
      } else {
        assert m[format := true] - {format} == m;
      }
    }
  }

  /** The text runs of q are those of p, with the same marks except `key`, which
      is set in every run exactly when `on`. */
  ghost predicate UniformMark(p: Para, q: Para, key: string, on: bool)
  {
    && q.kind == p.kind && q.align == p.align
    && |q.texts| == |p.texts|
    && forall i :: 0 <= i < |p.texts| ==>
         && q.texts[i].text == p.texts[i].text
         && q.texts[i].marks - {key} == p.texts[i].marks - {key}
         && MarkOn(q.texts[i].marks, key) == on
  }

  /** On an expanded selection, toggling twice restores whether the mark is
      active and touches no other mark, but leaves the mark uniform over the
      covered text runs: set everywhere if it was active, cleared everywhere if not. */
  lemma ToggleMarkTwiceOnSpan(st: EditorState, format: string)
    requires ValidState(st) && st.selection.Some? && st.selection.value.Span?
    ensures
      var twice := ToggleMark(ToggleMark(st, format), format);
      && IsMarkActive(twice, format) == IsMarkActive(st, format)
      && twice.selection == st.selection && twice.marks == st.marks
  {
    ToggleMarkFlips(st, format);
    ToggleMarkFlips(ToggleMark(st, format), format);
  }

  /** Removing then adding a mark (or adding then removing it) on one lowest block. */
  lemma MarkTwiceOnPara(p: Para, format: string, active: bool)
    ensures
      var first := if active then UnmarkFn(format) else MarkFn(format);
      var second := if active then MarkFn(format) else UnmarkFn(format);
      UniformMark(p, second(first(p)), format, active)
  {
    var first := if active then UnmarkFn(format) else MarkFn(format);
    var second := if active then MarkFn(format) else UnmarkFn(format);
    var q := second(first(p));
    forall i | 0 <= i < |p.texts|
      ensures q.texts[i].marks - {format} == p.texts[i].marks - {format}
      ensures MarkOn(q.texts[i].marks, format) == active
    {
      var m := p.texts[i].marks;
      if active {
        assert q.texts[i].marks == (m - {format})[format := true];
        assert (m - {format})[format := true] - {format} == m - {format};
      } else {
        assert q.texts[i].marks == m[format := true] - {format};
        assert m[format := true] - {format} == m - {format};
      }
    }
  }

  lemma ToggleMarkTwiceOnSpanRuns(st: EditorState, format: string)
    requires ValidState(st) && st.selection.Some? && st.selection.value.Span?
    ensures
      var lo, hi := st.selection.value.Lo(), st.selection.value.Hi();
      var s := Slots(st.children);
      var t := Slots(ToggleMark(ToggleMark(st, format), format).children);
      && |t| == |s|
      && (forall j :: 0 <= j < |s| && !(lo <= j <= hi) ==> t[j] == s[j])
      && (forall j :: lo <= j <= hi ==>
            t[j].group == s[j].group && UniformMark(s[j].para, t[j].para, format, IsMarkActive(st, format)))
  {
    ToggleMarkFlips(st, format);
    var once := ToggleMark(st, format);
    var lo, hi := st.selection.value.Lo(), st.selection.value.Hi();
    var active := IsMarkActive(st, format);
    var first := if active then UnmarkFn(format) else MarkFn(format);
    var second := if active then MarkFn(format) else UnmarkFn(format);
    var c1 := SetNodes(st.children, 0, lo, hi, first);
    assert once.children == c1;
    assert IsMarkActive(once, format) == !active;
    var c2 := SetNodes(c1, 0, lo, hi, second);
    assert ToggleMark(once, format).children == c2;
    SetNodesSlots(st.children, 0, lo, hi, first);
    SetNodesSlots(c1, 0, lo, hi, second);
    var s, t := Slots(st.children), Slots(c2);
    forall j | lo <= j <= hi
      ensures t[j].group == s[j].group && UniformMark(s[j].para, t[j].para, format, active)
    {
      assert t[j] == Slot(second(first(s[j].para)), s[j].group);
      MarkTwiceOnPara(s[j].para, format, active);
    }
  }

  // ---------------------------------------------------------------------------
  // Blocks

  /** The attribute a block format is checked against: `align` or `type`. */
  datatype Attr = TypeAttr | AlignAttr

  /** `align` for the four alignment formats, `type` for every other format. */
  function BlockAttr(format: Format): (a: Attr)
    ensures a == AlignAttr <==> format in ["left", "center", "right", "justify"]
  {
    if IsAlignFormat(format) then AlignAttr else TypeAttr
  }

  function AttrValue(kind: Format, align: Option<Format>, key: Attr): Option<Format>
  {
    match key
    case TypeAttr => Some(kind)
    case AlignAttr => align
  }

  /** `n[blockType] === format` for the lowest block or its container. */
  predicate SlotMatches(s: Slot, key: Attr, format: Format)
  {
    || AttrValue(s.para.kind, s.para.align, key) == Some(format)
    || (s.group.Some? && AttrValue(s.group.value.kind, s.group.value.align, key) == Some(format))
  }

  /** The first element at positions j..hi, in document order, whose attribute is `format`. */
  function FindMatch(slots: seq<Slot>, j: nat, hi: nat, key: Attr, format: Format): (r: Option<nat>)
    requires hi < |slots|
    ensures r.Some? ==> j <= r.value <= hi && SlotMatches(slots[r.value], key, format)
    ensures r.Some? ==> forall i :: j <= i < r.value ==> !SlotMatches(slots[i], key, format)
    ensures r.None? ==> forall i :: j <= i <= hi ==> !SlotMatches(slots[i], key, format)
    decreases hi + 1 - j
  {
    if j > hi then None
    else if SlotMatches(slots[j], key, format) then Some(j)
    else FindMatch(slots, j + 1, hi, key, format)
  }

  /** `isBlockActive`: false without a selection, otherwise whether the search
      through the selected range finds a match. A block format is active exactly
      when some element in the selected range has the inspected attribute equal
      to the format. */
  function IsBlockActive(st: EditorState, format: Format, key: Attr): (r: bool)
    requires SelectionFits(st)
    ensures r <==> (st.selection.Some? &&
      exists j :: st.selection.value.Lo() <= j <= st.selection.value.Hi() && SlotMatches(Slots(st.children)[j], key, format))
  {
    if st.selection.None? then false
    else
      var lo, hi := st.selection.value.Lo(), st.selection.value.Hi();
      var m := FindMatch(Slots(st.children), lo, hi, key, format);
      if m.Some? then
        assert lo <= m.value <= hi && SlotMatches(Slots(st.children)[m.value], key, format);
        assert exists j :: lo <= j <= hi && SlotMatches(Slots(st.children)[j], key, format);
        true
      else false
  }

  /** The properties `toggleBlock` sets on the selected lowest blocks. */
  datatype Props = AlignProps(align: Option<Format>) | TypeProps(kind: Format)

  /** The `type` a non-alignment toggle gives the selected blocks: "paragraph" when
      the format was active (or is "paragraph"), "list-item" when a list is turned
      on, the format itself otherwise; never a list type. */
  function ToggledType(format: Format, isActive: bool): (k: Format)
    ensures !IsListFormat(k)
    ensures k == "paragraph" <==> isActive || format == "paragraph"
    ensures !isActive && IsListFormat(format) ==> k == "list-item"
    ensures !isActive && !IsListFormat(format) ==> k == format
  {
    if isActive then "paragraph" else if IsListFormat(format) then "list-item" else format
  }

  /** `newProperties`: an alignment format sets `align` (cleared when it was
      active), any other format sets `type`. */
  function NewProperties(format: Format, isActive: bool): (r: Props)
    ensures r.AlignProps? <==> IsAlignFormat(format)
    ensures r.AlignProps? ==> r.align == if isActive then None else Some(format)
    ensures r.TypeProps? ==> r.kind == ToggledType(format, isActive)
  {
    if IsAlignFormat(format) then AlignProps(if isActive then None else Some(format))
    else TypeProps(ToggledType(format, isActive))
  }

  function ApplyProps(props: Props): Para -> Para
  {
    (p: Para) => match props
         case AlignProps(a) => p.(align := a)
         case TypeProps(k) => p.(kind := k)
  }

  /** `toggleBlock`: unwrap the selected list items (not for alignments), set the
      new properties on the selected lowest blocks, and wrap them in a new list
      when a list format is turned on. */
  function ToggleBlock(st: EditorState, format: Format): (r: EditorState)
    requires SelectionFits(st)
    ensures r.selection == st.selection && r.marks == st.marks && SelectionFits(r)
  {
    if st.selection.None? then st
    else
      var isActive := IsBlockActive(st, format, BlockAttr(format));
      var isList := IsListFormat(format);
      var lo, hi := st.selection.value.Lo(), st.selection.value.Hi();
      var unwrapped := UnwrapNodes(st.children, 0, lo, hi, format);
      var updated := SetNodes(unwrapped, 0, lo, hi, ApplyProps(NewProperties(format, isActive)));
      var wrapped := if !isActive && isList then WrapNodes(updated, 0, lo, hi, Head(format, None)) else updated;
      UnwrapNodesSlots(st.children, 0, lo, hi, format);
      SetNodesSlots(unwrapped, 0, lo, hi, ApplyProps(NewProperties(format, isActive)));
      WrapNodesSize(updated, 0, lo, hi, Head(format, None));
      st.(children := wrapped)
  }

  lemma ListIsNotAlign(format: Format)
    requires IsListFormat(format)
    ensures !IsAlignFormat(format)
  {
  }

  lemma NewPropertiesKeepWellFormed(format: Format, isActive: bool)
    ensures forall p :: WellFormedPara(p) ==> WellFormedPara(ApplyProps(NewProperties(format, isActive))(p))
  {
  }

  /** The first two steps of `toggleBlock`: unwrap, then set the new properties. */
  lemma UnwrapThenSet(doc: seq<Block>, lo: nat, hi: nat, format: Format, active: bool)
    requires WellFormed(doc) && lo <= hi < |Slots(doc)|
    ensures
      var f := ApplyProps(NewProperties(format, active));
      var updated := SetNodes(UnwrapNodes(doc, 0, lo, hi, format), 0, lo, hi, f);
      var s, t := Slots(doc), Slots(updated);
      && WellFormed(updated)
      && |t| == |s|
      && forall j :: 0 <= j < |s| ==>
           t[j] == if lo <= j <= hi then Slot(f(s[j].para), Ungroup(format)(s[j]).group) else s[j]
  {
    var f := ApplyProps(NewProperties(format, active));
    var unwrapped := UnwrapNodes(doc, 0, lo, hi, format);
    UnwrapNodesSlots(doc, 0, lo, hi, format);
    UnwrapNodesWellFormed(doc, 0, lo, hi, format);
    SetNodesSlots(unwrapped, 0, lo, hi, f);
    NewPropertiesKeepWellFormed(format, active);
    SetNodesWellFormed(unwrapped, 0, lo, hi, f);
  }

  /** The last step of turning a list on: the selected lowest blocks, now outside
      every container, go into one new list. */
  lemma WrapSelected(updated: seq<Block>, lo: nat, hi: nat, h: Head)
    requires WellFormed(updated) && lo <= hi < |Slots(updated)|
    requires IsListFormat(h.kind) && h.align.None?
    requires forall j :: lo <= j <= hi ==> Slots(updated)[j].group.None?
    ensures
      var w := WrapNodes(updated, 0, lo, hi, h);
      && WellFormed(w)
      && UpdatedOn(Slots(updated), Slots(w), 0, lo, hi, Regroup(h))
      && WrappedOnce(updated, 0, lo, hi, h, w)
  {
    WrapNodesSlots(updated, 0, lo, hi, h);
    WrapNodesOnce(updated, 0, lo, hi, h);
    WrapNodesWellFormed(updated, 0, lo, hi, h);
  }

  /** The whole of `toggleBlock` on the lowest blocks, before reading the result. */
  lemma ToggleBlockSlots(st: EditorState, format: Format)
    requires ValidState(st) && st.selection.Some?
    ensures
      var r := ToggleBlock(st, format);
      var active := IsBlockActive(st, format, BlockAttr(format));
      var f := ApplyProps(NewProperties(format, active));
      var lo, hi := st.selection.value.Lo(), st.selection.value.Hi();
      var s, t := Slots(st.children), Slots(r.children);
      && WellFormed(r.children) && r.selection == st.selection && r.marks == st.marks
      && |t| == |s|
      && (forall j :: 0 <= j < |s| && !(lo <= j <= hi) ==> t[j] == s[j])
      && (forall j :: lo <= j <= hi ==>
            t[j] == Slot(f(s[j].para),
                         if !active && IsListFormat(format) then Some(Head(format, None)) else Ungroup(format)(s[j]).group))
      && (!active && IsListFormat(format) ==>
            WrappedOnce(SetNodes(UnwrapNodes(st.children, 0, lo, hi, format), 0, lo, hi, f),
                        0, lo, hi, Head(format, None), r.children))
  {
    var active := IsBlockActive(st, format, BlockAttr(format));
    var isList := IsListFormat(format);
    var lo, hi := st.selection.value.Lo(), st.selection.value.Hi();
    var f := ApplyProps(NewProperties(format, active));
    var updated := SetNodes(UnwrapNodes(st.children, 0, lo, hi, format), 0, lo, hi, f);
    UnwrapThenSet(st.children, lo, hi, format, active);
    var r := ToggleBlock(st, format);
    if !active && isList {
      assert r.children == WrapNodes(updated, 0, lo, hi, Head(format, None));
      ListIsNotAlign(format);
      WellFormedSlots(st.children);
      var s := Slots(st.children);
      forall j | lo <= j <= hi ensures Slots(updated)[j].group.None? {
        assert WellFormedSlot(s[j]);
      }
      WrapSelected(updated, lo, hi, Head(format, None));
    } else {
      assert r.children == updated;
    }
  }

  /** An alignment toggle sets `align` to the format on every selected lowest
      block when it was not active, clears it when it was, and changes neither
      `type`, nor the text runs, nor any container: the top-level blocks and the
      lists are the same ones as before. */
  lemma ToggleAlignEffect(st: EditorState, format: Format)
    requires ValidState(st) && st.selection.Some? && IsAlignFormat(format)
    ensures
      var active := IsBlockActive(st, format, AlignAttr);
      var s, t := Slots(st.children), Slots(ToggleBlock(st, format).children);
      && ValidState(ToggleBlock(st, format))
      && SameShape(st.children, ToggleBlock(st, format).children)
      && |t| == |s|
      && forall j :: 0 <= j < |s| ==>
           t[j] == if st.selection.value.Lo() <= j <= st.selection.value.Hi()
                   then Slot(s[j].para.(align := if active then None else Some(format)), s[j].group)
                   else s[j]
  {
    var active := IsBlockActive(st, format, AlignAttr);
    var f := ApplyProps(NewProperties(format, active));
    var lo, hi := st.selection.value.Lo(), st.selection.value.Hi();
    var r := ToggleBlock(st, format);
    assert r.children == SetNodes(st.children, 0, lo, hi, f) by {
      assert !IsListFormat(format);
    }
    SetNodesSlots(st.children, 0, lo, hi, f);
    NewPropertiesKeepWellFormed(format, active);
    SetNodesWellFormed(st.children, 0, lo, hi, f);
    var s, t := Slots(st.children), Slots(r.children);
    forall j | lo <= j <= hi
      ensures t[j] == Slot(s[j].para.(align := if active then None else Some(format)), s[j].group)
    {
      assert t[j] == OnPara(f)(s[j]);
    }
  }

  /** Any other toggle sets `type` on every selected lowest block ("paragraph"
      when the format was active, "list-item" for a list format, else the format),
      keeps `align` and the text runs, takes the block out of its list, and puts
      it into a new list of kind `format` exactly when a list is turned on; that
      list is one new container around exactly the selected blocks. */
  lemma ToggleTypeEffect(st: EditorState, format: Format)
    requires ValidState(st) && st.selection.Some? && !IsAlignFormat(format)
    ensures
      var active := IsBlockActive(st, format, TypeAttr);
      var s, t := Slots(st.children), Slots(ToggleBlock(st, format).children);
      && ValidState(ToggleBlock(st, format))
      && |t| == |s|
      && (forall j :: 0 <= j < |s| ==>
           t[j] == if st.selection.value.Lo() <= j <= st.selection.value.Hi()
                   then Slot(s[j].para.(kind := ToggledType(format, active)),
                             if !active && IsListFormat(format) then Some(Head(format, None)) else None)
                   else s[j])
      && (!active && IsListFormat(format) ==>
            var lo, hi := st.selection.value.Lo(), st.selection.value.Hi();
            var unwrapped := UnwrapNodes(st.children, 0, lo, hi, format);
            WrappedOnce(SetNodes(unwrapped, 0, lo, hi, ApplyProps(TypeProps("list-item"))),
                        0, lo, hi, Head(format, None), ToggleBlock(st, format).children))
  {
    ToggleBlockSlots(st, format);
    var active := IsBlockActive(st, format, TypeAttr);
    var lo, hi := st.selection.value.Lo(), st.selection.value.Hi();
    var s := Slots(st.children);
    WellFormedSlots(st.children);
    forall j | lo <= j <= hi ensures Ungroup(format)(s[j]).group.None? {
      assert WellFormedSlot(s[j]);
    }
  }
}

module FormattingProperties {
  import opened Wrappers
  import opened Document
  import opened SlateTransforms
  import opened Formatting

  /** Toggling a block format flips whether it is active (for every format but
      "paragraph", the type a toggle-off falls back to). */
  lemma ToggleBlockFlips(st: EditorState, format: Format)
    requires ValidState(st) && st.selection.Some? && format != "paragraph"
    ensures IsBlockActive(ToggleBlock(st, format), format, BlockAttr(format)) == !IsBlockActive(st, format, BlockAttr(format))
  {
    var key := BlockAttr(format);
    var active := IsBlockActive(st, format, key);
    var r := ToggleBlock(st, format);
    if IsAlignFormat(format) { ToggleAlignEffect(st, format); } else { ToggleTypeEffect(st, format); }
    var lo, hi := st.selection.value.Lo(), st.selection.value.Hi();
    var s, t := Slots(st.children), Slots(r.children);
    WellFormedSlots(st.children);
    if active {
      forall j | lo <= j <= hi ensures !SlotMatches(t[j], key, format) {
        assert WellFormedSlot(s[j]);
      }
    } else {
      assert SlotMatches(t[lo], key, format);
    }
  }

  function Run(text: string, bold: bool): Text
  {
    Text(text, if bold then map["bold" := true] else map[])
  }

  /** A list item inside a bulleted list, with the caret in it: toggling
      "bulleted-list" removes the list and makes the item a paragraph. */
  lemma BulletedListToggledOff()
    ensures
      var item := Para("list-item", None, [Run("a", false)]);
      var st := EditorState([Group(Head("bulleted-list", None), [item])], Some(Caret(0)), None);
      ToggleBlock(st, "bulleted-list").children == [Single(Para("paragraph", None, [Run("a", false)]))]
  {
    var item := Para("list-item", None, [Run("a", false)]);
    var h := Head("bulleted-list", None);
    var st := EditorState([Group(h, [item])], Some(Caret(0)), None);
    assert Slots(st.children) == [Slot(item, Some(h))];
    assert IsBlockActive(st, "bulleted-list", TypeAttr);
    var unwrapped := UnwrapNodes(st.children, 0, 0, 0, "bulleted-list");
    assert st.children[1..] == [];
    assert unwrapped == UnwrapBlock(Group(h, [item]), 0, 0, 0, "bulleted-list") + UnwrapNodes([], 1, 0, 0, "bulleted-list");
    assert unwrapped == [Single(item)];
    var f := ApplyProps(NewProperties("bulleted-list", true));
    assert SetNodes(unwrapped, 0, 0, 0, f) == [Single(Para("paragraph", None, [Run("a", false)]))];
  }

  /** An expanded selection over a plain run followed by a bold one: "bold" is
      not active, since the first run decides; toggling makes both runs bold. */
  lemma PlainThenBoldToggled()
    ensures
      var st := EditorState([Single(Para("paragraph", None, [Run("a", false)])),
                             Single(Para("paragraph", None, [Run("b", true)]))], Some(Span(0, 1)), None);
      var after := ToggleMark(st, "bold");
      && !IsMarkActive(st, "bold")
      && after.children == [Single(Para("paragraph", None, [Run("a", true)])),
                            Single(Para("paragraph", None, [Run("b", true)]))]
      && IsMarkActive(after, "bold")
  {
    var p0, p1 := Para("paragraph", None, [Run("a", false)]), Para("paragraph", None, [Run("b", true)]);
    var st := EditorState([Single(p0), Single(p1)], Some(Span(0, 1)), None);
    SinglesSlots(st.children);
    assert !IsMarkActive(st, "bold");
    var after := SetNodes(st.children, 0, 0, 1, MarkFn("bold"));
    assert ToggleMark(st, "bold").children == after;
    assert MarkTexts(p0, "bold") == Para("paragraph", None, [Run("a", true)]);
    assert map["bold" := true]["bold" := true] == map["bold" := true];
    assert MarkTexts(p1, "bold") == Para("paragraph", None, [Run("b", true)]);
    assert st.children[1..][1..] == [];
    assert Size(Single(p0)) == 1;
    assert SetNodes([Single(p1)], 1, 0, 1, MarkFn("bold")) == [Single(MarkTexts(p1, "bold"))] + SetNodes([], 2, 0, 1, MarkFn("bold"));
    assert after == [Single(MarkTexts(p0, "bold"))] + SetNodes([Single(p1)], 1, 0, 1, MarkFn("bold"));
    SinglesSlots(after);
  }

  /** The same two runs in the other order: "bold" counts as active although the
      second run is plain, and toggling removes it from both. */
  lemma BoldThenPlainToggled()
    ensures
      var st := EditorState([Single(Para("paragraph", None, [Run("a", true)])),
                             Single(Para("paragraph", None, [Run("b", false)]))], Some(Span(0, 1)), None);
      && IsMarkActive(st, "bold")
      && ToggleMark(st, "bold").children == [Single(Para("paragraph", None, [Run("a", false)])),
                                             Single(Para("paragraph", None, [Run("b", false)]))]
  {
    var p0, p1 := Para("paragraph", None, [Run("a", true)]), Para("paragraph", None, [Run("b", false)]);
    var st := EditorState([Single(p0), Single(p1)], Some(Span(0, 1)), None);
    SinglesSlots(st.children);
    assert IsMarkActive(st, "bold");
    var after := SetNodes(st.children, 0, 0, 1, UnmarkFn("bold"));
    assert ToggleMark(st, "bold").children == after;
    assert map["bold" := true] - {"bold"} == map[];
    assert UnmarkTexts(p0, "bold") == Para("paragraph", None, [Run("a", false)]);
    assert UnmarkTexts(p1, "bold") == Para("paragraph", None, [Run("b", false)]);
    assert st.children[1..][1..] == [];
    assert Size(Single(p0)) == 1;
    assert SetNodes([Single(p1)], 1, 0, 1, UnmarkFn("bold")) == [Single(UnmarkTexts(p1, "bold"))] + SetNodes([], 2, 0, 1, UnmarkFn("bold"));
    assert after == [Single(UnmarkTexts(p0, "bold"))] + SetNodes([Single(p1)], 1, 0, 1, UnmarkFn("bold"));
  }

  /** Toggling "bold" twice over a bold run followed by a plain one does not give
      the runs back: the first toggle clears both, the second makes both bold. */
  lemma BoldThenPlainToggledTwice()
    ensures
      var st := EditorState([Single(Para("paragraph", None, [Run("a", true)])),
                             Single(Para("paragraph", None, [Run("b", false)]))], Some(Span(0, 1)), None);
      ToggleMark(ToggleMark(st, "bold"), "bold").children
        == [Single(Para("paragraph", None, [Run("a", true)])),
            Single(Para("paragraph", None, [Run("b", true)]))]
  {
    var st := EditorState([Single(Para("paragraph", None, [Run("a", true)])),
                           Single(Para("paragraph", None, [Run("b", false)]))], Some(Span(0, 1)), None);
    BoldThenPlainToggled();
    var once := ToggleMark(st, "bold");
    var plain := EditorState([Single(Para("paragraph", None, [Run("a", false)])),
                              Single(Para("paragraph", None, [Run("b", false)]))], Some(Span(0, 1)), None);
    assert once == plain;
    PlainRunsToggled();
  }

  /** Two plain runs under an expanded selection: toggling "bold" makes both bold. */
  lemma PlainRunsToggled()
    ensures
      var st := EditorState([Single(Para("paragraph", None, [Run("a", false)])),
                             Single(Para("paragraph", None, [Run("b", false)]))], Some(Span(0, 1)), None);
      && !IsMarkActive(st, "bold")
      && ToggleMark(st, "bold").children == [Single(Para("paragraph", None, [Run("a", true)])),
                                             Single(Para("paragraph", None, [Run("b", true)]))]
  {
    var p0, p1 := Para("paragraph", None, [Run("a", false)]), Para("paragraph", None, [Run("b", false)]);
    var st := EditorState([Single(p0), Single(p1)], Some(Span(0, 1)), None);
    SinglesSlots(st.children);
    assert !IsMarkActive(st, "bold");
    var after := SetNodes(st.children, 0, 0, 1, MarkFn("bold"));
    assert ToggleMark(st, "bold").children == after;
    assert MarkTexts(p0, "bold") == Para("paragraph", None, [Run("a", true)]);
    assert MarkTexts(p1, "bold") == Para("paragraph", None, [Run("b", true)]);
    assert st.children[1..][1..] == [];
    assert Size(Single(p0)) == 1;
    assert SetNodes([Single(p1)], 1, 0, 1, MarkFn("bold")) == [Single(MarkTexts(p1, "bold"))] + SetNodes([], 2, 0, 1, MarkFn("bold"));
    assert after == [Single(MarkTexts(p0, "bold"))] + SetNodes([Single(p1)], 1, 0, 1, MarkFn("bold"));
  }
}
