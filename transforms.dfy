/** Simplified equivalents of the three Slate transforms the toolbar uses on
    blocks (`Transforms.unwrapNodes` with `split: true`, `Transforms.setNodes`
    and `Transforms.wrapNodes`), each over the lowest blocks lo..hi of the
    document. Positions are counted from `off`, the number of lowest blocks
    before `doc`. Each transform comes with a lemma saying, lowest block by
    lowest block, what it does. */
module SlateTransforms {
  import opened Wrappers
  import opened Document

  /** t is s with f applied exactly to the positions lo..hi (counting from off). */
  ghost predicate UpdatedOn(s: seq<Slot>, t: seq<Slot>, off: int, lo: int, hi: int, f: Slot -> Slot)
  {
    && |t| == |s|
    && forall j :: 0 <= j < |s| ==> t[j] == if lo <= off + j <= hi then f(s[j]) else s[j]
  }

  lemma UpdatedOnAppend(s1: seq<Slot>, t1: seq<Slot>, s2: seq<Slot>, t2: seq<Slot>,
                        off: int, lo: int, hi: int, f: Slot -> Slot)
    requires UpdatedOn(s1, t1, off, lo, hi, f)
    requires UpdatedOn(s2, t2, off + |s1|, lo, hi, f)
    ensures UpdatedOn(s1 + s2, t1 + t2, off, lo, hi, f)
  {
    forall j | 0 <= j < |s1 + s2|
      ensures (t1 + t2)[j] == if lo <= off + j <= hi then f((s1 + s2)[j]) else (s1 + s2)[j]
    {
      if j >= |s1| {
        assert (s1 + s2)[j] == s2[j - |s1|];
        assert (t1 + t2)[j] == t2[j - |s1|];
      }
    }
  }

  // ---------------------------------------------------------------------------
  // setNodes on the lowest blocks of the range

  function MapItems(items: seq<Para>, off: int, lo: int, hi: int, f: Para -> Para): seq<Para>
  {
    seq(|items|, i requires 0 <= i < |items| => if lo <= off + i <= hi then f(items[i]) else items[i])
  }

  function MapBlock(b: Block, off: int, lo: int, hi: int, f: Para -> Para): Block
  {
    match b
    case Single(p) => Single(if lo <= off <= hi then f(p) else p)
    case Group(h, items) => Group(h, MapItems(items, off, lo, hi, f))
  }

  /** A lowest block where the other is one, or a list with the same attributes
      and as many items as the other. */
  predicate SameKind(x: Block, y: Block)
  {
    match x
    case Single(_) => y.Single?
    case Group(h, items) => y.Group? && y.head == h && |y.items| == |items|
  }

  /** Two documents with the same containers: as many top-level blocks, each of
      the same kind as the other's in its place. */
  predicate SameShape(a: seq<Block>, b: seq<Block>)
  {
    |a| == |b| && (a != [] ==> SameKind(a[0], b[0]) && SameShape(a[1..], b[1..]))
  }

  /** Applies f to every lowest block in the range, where it stands: no container
      is added, removed, split or merged, and every container keeps its attributes. */
  function SetNodes(doc: seq<Block>, off: int, lo: int, hi: int, f: Para -> Para): (r: seq<Block>)
    ensures SameShape(doc, r)
  {
    if doc == [] then []
    else
      var m, rest := MapBlock(doc[0], off, lo, hi, f), SetNodes(doc[1..], off + Size(doc[0]), lo, hi, f);
      assert ([m] + rest)[1..] == rest;
      [m] + rest
  }

  function OnPara(f: Para -> Para): Slot -> Slot
  {
    (s: Slot) => Slot(f(s.para), s.group)
  }

  lemma {:induction false} SetNodesSlots(doc: seq<Block>, off: int, lo: int, hi: int, f: Para -> Para)
    ensures UpdatedOn(Slots(doc), Slots(SetNodes(doc, off, lo, hi, f)), off, lo, hi, OnPara(f))
  {
    if doc != [] {
      var b := doc[0];
      SetNodesSlots(doc[1..], off + Size(b), lo, hi, f);
      SlotsCons(MapBlock(b, off, lo, hi, f), SetNodes(doc[1..], off + Size(b), lo, hi, f));
      assert UpdatedOn(BlockSlots(b), BlockSlots(MapBlock(b, off, lo, hi, f)), off, lo, hi, OnPara(f));
      UpdatedOnAppend(BlockSlots(b), BlockSlots(MapBlock(b, off, lo, hi, f)),
                      Slots(doc[1..]), Slots(SetNodes(doc[1..], off + Size(b), lo, hi, f)),
                      off, lo, hi, OnPara(f));
    }
  }

  lemma {:induction false} SetNodesWellFormed(doc: seq<Block>, off: int, lo: int, hi: int, f: Para -> Para)
    requires WellFormed(doc)
    requires forall p :: WellFormedPara(p) ==> WellFormedPara(f(p))
    ensures WellFormed(SetNodes(doc, off, lo, hi, f))
  {
    if doc != [] {
      var m := MapBlock(doc[0], off, lo, hi, f);
      var tail := SetNodes(doc[1..], off + Size(doc[0]), lo, hi, f);
      assert SetNodes(doc, off, lo, hi, f) == [m] + tail;
      assert WellFormedBlock(m) by {
        assert WellFormedBlock(doc[0]);
        MapBlockWellFormed(doc[0], off, lo, hi, f);
      }
      SetNodesWellFormed(doc[1..], off + Size(doc[0]), lo, hi, f);
      WellFormedAppend([m], tail);
    }
  }

  lemma MapBlockWellFormed(b: Block, off: int, lo: int, hi: int, f: Para -> Para)
    requires WellFormedBlock(b)
    requires forall p :: WellFormedPara(p) ==> WellFormedPara(f(p))
    ensures WellFormedBlock(MapBlock(b, off, lo, hi, f))
  {
  }

  // ---------------------------------------------------------------------------
  // unwrapNodes of list containers, splitting them at the range's edges

  function Clamp(x: int, n: nat): (r: nat)
    ensures r <= n
    ensures 0 <= x <= n ==> r == x
  {
    if x < 0 then 0 else if x > n then n else x
  }

  function Singles(ps: seq<Para>): (r: seq<Block>)
    ensures |r| == |ps|
    ensures forall i :: 0 <= i < |ps| ==> r[i] == Single(ps[i])
  {
    seq(|ps|, i requires 0 <= i < |ps| => Single(ps[i]))
  }

  /** The match of the unwrap step: a list container, and only when the format is
      not an alignment. */
  predicate Unwraps(h: Head, format: Format)
  {
    IsListFormat(h.kind) && !IsAlignFormat(format)
  }

  /** The pieces a matching container splits into when the items a..e-1 are lifted. */
  function SplitGroup(h: Head, items: seq<Para>, a: nat, e: nat): seq<Block>
    requires a < e <= |items|
  {
    Piece(h, items[..a]) + Singles(items[a..e]) + Piece(h, items[e..])
  }

  /** Lifts the items of a matching container that lie in the range out of it; the
      items before and after the range stay in copies of the container. */
  function UnwrapBlock(b: Block, off: int, lo: int, hi: int, format: Format): seq<Block>
  {
    match b
    case Single(_) => [b]
    case Group(h, items) =>
      var a := Clamp(lo - off, |items|);
      var e := Clamp(hi + 1 - off, |items|);
      if !Unwraps(h, format) || a >= e then [b] else SplitGroup(h, items, a, e)
  }

  /** The document with every top-level block replaced by what `g` makes of it,
      given the number of lowest blocks before it. */
  function FlatMap(doc: seq<Block>, off: int, g: (Block, int) -> seq<Block>): seq<Block>
  {
    if doc == [] then [] else g(doc[0], off) + FlatMap(doc[1..], off + Size(doc[0]), g)
  }

  /** Each block's rewrite by g applies f to exactly the lowest blocks lo..hi it holds. */
  ghost predicate BlockwiseUpdate(g: (Block, int) -> seq<Block>, lo: int, hi: int, f: Slot -> Slot)
  {
    forall b: Block, o: int :: UpdatedOn(BlockSlots(b), Slots(g(b, o)), o, lo, hi, f)
  }

  lemma FlatMapConsSlots(doc: seq<Block>, off: int, g: (Block, int) -> seq<Block>,
                         lo: int, hi: int, f: Slot -> Slot)
    requires doc != []
    requires UpdatedOn(BlockSlots(doc[0]), Slots(g(doc[0], off)), off, lo, hi, f)
    requires UpdatedOn(Slots(doc[1..]), Slots(FlatMap(doc[1..], off + Size(doc[0]), g)), off + Size(doc[0]), lo, hi, f)
    ensures UpdatedOn(Slots(doc), Slots(FlatMap(doc, off, g)), off, lo, hi, f)
  {
    var b, rest := doc[0], doc[1..];
    var s1, next := BlockSlots(b), off + Size(b);
    var u, v := g(b, off), FlatMap(rest, next, g);
    assert next == off + |s1|;
    UpdatedOnAppend(s1, Slots(u), Slots(rest), Slots(v), off, lo, hi, f);
    assert FlatMap(doc, off, g) == u + v;
    SlotsAppend(u, v);
  }

  /** A block-by-block rewrite is specified slot by slot when each block's rewrite is. */
  lemma {:induction false} FlatMapSlots(doc: seq<Block>, off: int, g: (Block, int) -> seq<Block>,
                                        lo: int, hi: int, f: Slot -> Slot)
    requires BlockwiseUpdate(g, lo, hi, f)
    ensures UpdatedOn(Slots(doc), Slots(FlatMap(doc, off, g)), off, lo, hi, f)
  {
    if doc != [] {
      FlatMapSlots(doc[1..], off + Size(doc[0]), g, lo, hi, f);
      assert UpdatedOn(BlockSlots(doc[0]), Slots(g(doc[0], off)), off, lo, hi, f);
      FlatMapConsSlots(doc, off, g, lo, hi, f);
    }
  }

  /** A block-by-block rewrite keeps the tree well-formed when each block's rewrite does. */
  lemma {:induction false} FlatMapWellFormed(doc: seq<Block>, off: int, g: (Block, int) -> seq<Block>)
    requires WellFormed(doc)
    requires forall b: Block, o: int :: WellFormedBlock(b) ==> WellFormed(g(b, o))
    ensures WellFormed(FlatMap(doc, off, g))
  {
    if doc != [] {
      assert WellFormedBlock(doc[0]);
      FlatMapWellFormed(doc[1..], off + Size(doc[0]), g);
      WellFormedAppend(g(doc[0], off), FlatMap(doc[1..], off + Size(doc[0]), g));
    }
  }

  function UnwrapStep(lo: int, hi: int, format: Format): (Block, int) -> seq<Block>
  {
    (b: Block, off: int) => UnwrapBlock(b, off, lo, hi, format)
  }

  /** The unwrap step keeps every block when the format is an alignment. */
  lemma {:induction false} UnwrapAlignKeepsAll(doc: seq<Block>, off: int, lo: int, hi: int, format: Format)
    ensures IsAlignFormat(format) ==> FlatMap(doc, off, UnwrapStep(lo, hi, format)) == doc
  {
    if doc != [] && IsAlignFormat(format) {
      var b, rest, g := doc[0], doc[1..], UnwrapStep(lo, hi, format);
      UnwrapAlignKeepsAll(rest, off + Size(b), lo, hi, format);
      calc {
        FlatMap(doc, off, g);
        { FlatMapCons(doc, off, g); }
        g(b, off) + FlatMap(rest, off + Size(b), g);
        { UnwrapStepApply(b, off, lo, hi, format); }
        UnwrapBlock(b, off, lo, hi, format) + rest;
        { UnwrapBlockKeeps(b, off, lo, hi, format); }
        [b] + rest;
        { assert doc == [b] + rest; }
        doc;
      }
    }
  }

  lemma FlatMapCons(doc: seq<Block>, off: int, g: (Block, int) -> seq<Block>)
    requires doc != []
    ensures FlatMap(doc, off, g) == g(doc[0], off) + FlatMap(doc[1..], off + Size(doc[0]), g)
  {
  }

  lemma UnwrapStepApply(b: Block, off: int, lo: int, hi: int, format: Format)
    ensures UnwrapStep(lo, hi, format)(b, off) == UnwrapBlock(b, off, lo, hi, format)
  {
  }

  lemma UnwrapBlockKeeps(b: Block, off: int, lo: int, hi: int, format: Format)
    requires IsAlignFormat(format) || hi < off || off + Size(b) <= lo
    ensures UnwrapBlock(b, off, lo, hi, format) == [b]
  {
  }

  /** `Transforms.unwrapNodes` with `split: true` over the lowest blocks lo..hi.
      An alignment format matches no container: the document comes back as it was. */
  function UnwrapNodes(doc: seq<Block>, off: int, lo: int, hi: int, format: Format): (r: seq<Block>)
    ensures IsAlignFormat(format) ==> r == doc
  {
    UnwrapAlignKeepsAll(doc, off, lo, hi, format);
    FlatMap(doc, off, UnwrapStep(lo, hi, format))
  }

  function Ungroup(format: Format): Slot -> Slot
  {
    (s: Slot) => if s.group.Some? && Unwraps(s.group.value, format) then Slot(s.para, None) else s
  }

  /** A copy of a container holding `items`, or nothing when there are none. */
  function Piece(h: Head, items: seq<Para>): seq<Block>
  {
    if |items| > 0 then [Group(h, items)] else []
  }

  lemma PieceSlots(h: Head, items: seq<Para>)
    ensures |Slots(Piece(h, items))| == |items|
    ensures forall j :: 0 <= j < |items| ==> Slots(Piece(h, items))[j] == Slot(items[j], Some(h))
  {
    if |items| > 0 {
      SlotsCons(Group(h, items), []);
    }
  }

  lemma ThreeParts(x: seq<Slot>, y: seq<Slot>, z: seq<Slot>, j: int)
    requires 0 <= j < |x| + |y| + |z|
    ensures (x + y + z)[j] == if j < |x| then x[j] else if j < |x| + |y| then y[j - |x|] else z[j - |x| - |y|]
  {
  }

  /** Splitting a container keeps its lowest blocks in order and takes a..e-1 out of it. */
  lemma SplitGroupSlots(h: Head, items: seq<Para>, a: nat, e: nat)
    requires a < e <= |items|
    ensures |Slots(SplitGroup(h, items, a, e))| == |items|
    ensures forall j :: 0 <= j < |items| ==>
      Slots(SplitGroup(h, items, a, e))[j] == Slot(items[j], if a <= j < e then None else Some(h))
  {
    var pre, mid, post := Piece(h, items[..a]), Singles(items[a..e]), Piece(h, items[e..]);
    assert SplitGroup(h, items, a, e) == pre + mid + post;
    SlotsAppend(pre + mid, post);
    SlotsAppend(pre, mid);
    SinglesSlots(mid);
    PieceSlots(h, items[..a]);
    PieceSlots(h, items[e..]);
    var sp, sm, so := Slots(pre), Slots(mid), Slots(post);
    var t := sp + sm + so;
    forall j | 0 <= j < |items|
      ensures t[j] == Slot(items[j], if a <= j < e then None else Some(h))
    {
      ThreeParts(sp, sm, so, j);
    }
  }

  lemma UnwrapBlockSlots(b: Block, off: int, lo: int, hi: int, format: Format)
    ensures UpdatedOn(BlockSlots(b), Slots(UnwrapBlock(b, off, lo, hi, format)), off, lo, hi, Ungroup(format))
  {
    match b
    case Single(p) =>
      SlotsCons(b, []);
    case Group(h, items) =>
      var a := Clamp(lo - off, |items|);
      var e := Clamp(hi + 1 - off, |items|);
      var s := BlockSlots(b);
      if !Unwraps(h, format) || a >= e {
        SlotsCons(b, []);
      } else {
        SplitGroupSlots(h, items, a, e);
        var t := Slots(SplitGroup(h, items, a, e));
        forall j | 0 <= j < |s|
          ensures t[j] == if lo <= off + j <= hi then Ungroup(format)(s[j]) else s[j]
        {
          assert s[j] == Slot(items[j], Some(h));
        }
      }
  }

  lemma UnwrapNodesSlots(doc: seq<Block>, off: int, lo: int, hi: int, format: Format)
    ensures UpdatedOn(Slots(doc), Slots(UnwrapNodes(doc, off, lo, hi, format)), off, lo, hi, Ungroup(format))
  {
    var g := UnwrapStep(lo, hi, format);
    forall b: Block, o: int ensures UpdatedOn(BlockSlots(b), Slots(g(b, o)), o, lo, hi, Ungroup(format)) {
      UnwrapBlockSlots(b, o, lo, hi, format);
    }
    assert BlockwiseUpdate(g, lo, hi, Ungroup(format));
    FlatMapSlots(doc, off, g, lo, hi, Ungroup(format));
  }

  lemma UnwrapBlockWellFormed(b: Block, off: int, lo: int, hi: int, format: Format)
    requires WellFormedBlock(b)
    ensures WellFormed(UnwrapBlock(b, off, lo, hi, format))
  {
    match b
    case Single(_) =>
    case Group(h, items) =>
      var a := Clamp(lo - off, |items|);
      var e := Clamp(hi + 1 - off, |items|);
      if Unwraps(h, format) && a < e {
        var pre, mid, post := Piece(h, items[..a]), Singles(items[a..e]), Piece(h, items[e..]);
        assert WellFormed(pre);
        assert WellFormed(mid);
        assert WellFormed(post);
        WellFormedAppend(pre, mid);
        WellFormedAppend(pre + mid, post);
      }
  }

  lemma UnwrapNodesWellFormed(doc: seq<Block>, off: int, lo: int, hi: int, format: Format)
    requires WellFormed(doc)
    ensures WellFormed(UnwrapNodes(doc, off, lo, hi, format))
  {
    var g := UnwrapStep(lo, hi, format);
    forall b: Block, o: int | WellFormedBlock(b) ensures WellFormed(g(b, o)) {
      UnwrapBlockWellFormed(b, o, lo, hi, format);
    }
    FlatMapWellFormed(doc, off, g);
  }

  /** Rewriting two parts of a document one after the other is rewriting the whole. */
  lemma {:induction false} FlatMapAppend(a: seq<Block>, b: seq<Block>, off: int, g: (Block, int) -> seq<Block>)
    ensures FlatMap(a + b, off, g) == FlatMap(a, off, g) + FlatMap(b, off + |Slots(a)|, g)
  {
    if a == [] {
      assert a + b == b;
    } else {
      assert (a + b)[0] == a[0];
      assert (a + b)[1..] == a[1..] + b;
      FlatMapAppend(a[1..], b, off + Size(a[0]), g);
    }
  }

  /** A rewrite that keeps the blocks before and after `mid` rewrites only `mid`. */
  lemma FlatMapFrame(pre: seq<Block>, mid: seq<Block>, post: seq<Block>, off: int, g: (Block, int) -> seq<Block>)
    requires FlatMap(pre, off, g) == pre
    requires FlatMap(post, off + |Slots(pre)| + |Slots(mid)|, g) == post
    ensures FlatMap(pre + mid + post, off, g) == pre + FlatMap(mid, off + |Slots(pre)|, g) + post
  {
    SlotsAppend(pre, mid);
    FlatMapAppend(pre + mid, post, off, g);
    FlatMapAppend(pre, mid, off, g);
  }

  /** A document whose lowest blocks all lie before or all after the range is not touched. */
  lemma {:induction false} UnwrapNodesOutside(doc: seq<Block>, off: int, lo: int, hi: int, format: Format)
    requires hi < off || off + |Slots(doc)| <= lo
    ensures UnwrapNodes(doc, off, lo, hi, format) == doc
  {
    if doc != [] {
      var b := doc[0];
      UnwrapNodesOutside(doc[1..], off + Size(b), lo, hi, format);
      assert UnwrapBlock(b, off, lo, hi, format) == [b];
      assert doc == [b] + doc[1..];
    }
  }

  /** Unwrapping keeps every top-level block before the range and after it as it
      is, list containers included, whatever the format. */
  lemma UnwrapNodesKeepsOutside(pre: seq<Block>, mid: seq<Block>, post: seq<Block>,
                                off: int, lo: int, hi: int, format: Format)
    requires off + |Slots(pre)| <= lo
    requires hi < off + |Slots(pre)| + |Slots(mid)|
    ensures UnwrapNodes(pre + mid + post, off, lo, hi, format)
         == pre + UnwrapNodes(mid, off + |Slots(pre)|, lo, hi, format) + post
  {
    var g := UnwrapStep(lo, hi, format);
    assert FlatMap(pre, off, g) == pre by {
      UnwrapNodesOutside(pre, off, lo, hi, format);
    }
    assert FlatMap(post, off + |Slots(pre)| + |Slots(mid)|, g) == post by {
      UnwrapNodesOutside(post, off + |Slots(pre)| + |Slots(mid)|, lo, hi, format);
    }
    FlatMapFrame(pre, mid, post, off, g);
  }

  // ---------------------------------------------------------------------------
  // wrapNodes: one new container around the lowest blocks of the range

  predicate SinglesPrefix(doc: seq<Block>, n: nat)
  {
    n <= |doc| && forall i :: 0 <= i < n ==> doc[i].Single?
  }

  function Paras(bs: seq<Block>): (r: seq<Para>)
    requires forall i :: 0 <= i < |bs| ==> bs[i].Single?
    ensures |r| == |bs|
    ensures forall i :: 0 <= i < |bs| ==> r[i] == bs[i].para
  {
    seq(|bs|, i requires 0 <= i < |bs| => bs[i].para)
  }

  /** Wraps the top-level lowest blocks lo..hi in one container with attributes h.
      The range's blocks must already sit directly under the root, as they do
      after a list unwrap; otherwise nothing is wrapped. */
  function WrapNodes(doc: seq<Block>, off: int, lo: int, hi: int, h: Head): (r: seq<Block>)
    ensures |r| <= |doc|
  {
    if doc == [] then []
    else if off == lo && lo <= hi && SinglesPrefix(doc, hi - lo + 1) then
      [Group(h, Paras(doc[..hi - lo + 1]))] + doc[hi - lo + 1..]
    else [doc[0]] + WrapNodes(doc[1..], off + Size(doc[0]), lo, hi, h)
  }

  /** Putting the first n lowest blocks into one container keeps their number. */
  lemma WrapHereSize(doc: seq<Block>, n: nat, h: Head)
    requires SinglesPrefix(doc, n)
    ensures |Slots([Group(h, Paras(doc[..n]))] + doc[n..])| == |Slots(doc)|
  {
    var front, back := doc[..n], doc[n..];
    assert doc == front + back;
    SlotsAppend(front, back);
    SinglesSlots(front);
    SlotsCons(Group(h, Paras(front)), back);
  }

  function Regroup(h: Head): Slot -> Slot
  {
    (s: Slot) => Slot(s.para, Some(h))
  }

  predicate NoEmptyGroups(doc: seq<Block>)
  {
    forall i :: 0 <= i < |doc| ==> doc[i].Group? ==> |doc[i].items| > 0
  }

  /** Lowest blocks outside any container at the front of the document are top-level blocks. */
  lemma {:induction false} UngroupedPrefix(doc: seq<Block>, n: nat)
    requires NoEmptyGroups(doc)
    requires n <= |Slots(doc)|
    requires forall j :: 0 <= j < n ==> Slots(doc)[j].group.None?
    ensures SinglesPrefix(doc, n)
  {
    if n > 0 {
      assert doc != [];
      assert Slots(doc)[0] == BlockSlots(doc[0])[0];
      assert doc[0].Single?;
      assert Slots(doc) == [Slot(doc[0].para, None)] + Slots(doc[1..]);
      forall j | 0 <= j < n - 1 ensures Slots(doc[1..])[j].group.None? {
        assert Slots(doc[1..])[j] == Slots(doc)[j + 1];
      }
      UngroupedPrefix(doc[1..], n - 1);
      forall i | 0 <= i < n ensures doc[i].Single? {
        if i > 0 { assert doc[i] == doc[1..][i - 1]; }
      }
    }
  }

  /** f applied to exactly the first |sf| positions, starting at lo. */
  lemma UpdatedOnPrefix(sf: seq<Slot>, tf: seq<Slot>, sb: seq<Slot>, lo: int, hi: int, f: Slot -> Slot)
    requires |tf| == |sf| == hi - lo + 1
    requires forall j :: 0 <= j < |sf| ==> tf[j] == f(sf[j])
    ensures UpdatedOn(sf + sb, tf + sb, lo, lo, hi, f)
  {
    forall j | 0 <= j < |sf + sb|
      ensures (tf + sb)[j] == if lo <= lo + j <= hi then f((sf + sb)[j]) else (sf + sb)[j]
    {
      if j >= |sf| {
        assert (sf + sb)[j] == sb[j - |sf|];
        assert (tf + sb)[j] == sb[j - |sf|];
      }
    }
  }

  /** The case where the range starts at the front of doc: its blocks become one container. */
  lemma WrapHereSlots(doc: seq<Block>, off: int, lo: int, hi: int, h: Head)
    requires NoEmptyGroups(doc)
    requires off == lo <= hi < off + |Slots(doc)|
    requires forall j :: 0 <= j <= hi - off ==> Slots(doc)[j].group.None?
    ensures UpdatedOn(Slots(doc), Slots(WrapNodes(doc, off, lo, hi, h)), off, lo, hi, Regroup(h))
  {
    var n := hi - lo + 1;
    UngroupedPrefix(doc, n);
    var front, back := doc[..n], doc[n..];
    assert doc == front + back;
    SlotsAppend(front, back);
    SinglesSlots(front);
    var g := Group(h, Paras(front));
    SlotsCons(g, back);
    var sf, tf := Slots(front), BlockSlots(g);
    forall j | 0 <= j < n ensures tf[j] == Regroup(h)(sf[j]) {
      assert sf[j] == Slot(front[j].para, None);
    }
    UpdatedOnPrefix(sf, tf, Slots(back), lo, hi, Regroup(h));
  }

  /** A block that precedes an ungrouped slot k lies wholly before it. */
  lemma FirstBlockBefore(doc: seq<Block>, k: nat)
    requires doc != [] && NoEmptyGroups(doc)
    requires 0 < k < |Slots(doc)| && Slots(doc)[k].group.None?
    ensures Size(doc[0]) <= k
  {
    var b := doc[0];
    assert Slots(doc) == BlockSlots(b) + Slots(doc[1..]);
    assert forall i :: 0 <= i < Size(b) ==> Slots(doc)[i] == BlockSlots(b)[i];
  }

  /** When the range starts after the first block, the rest of the document
      meets the requirements of WrapNodesSlots. */
  lemma WrapRestRequires(doc: seq<Block>, off: int, lo: int, hi: int)
    requires NoEmptyGroups(doc)
    requires off < lo <= hi < off + |Slots(doc)|
    requires forall j :: lo - off <= j <= hi - off ==> Slots(doc)[j].group.None?
    ensures doc != [] && Slots(doc) == BlockSlots(doc[0]) + Slots(doc[1..])
    ensures
      var rest, next := doc[1..], off + Size(doc[0]);
      && NoEmptyGroups(rest)
      && next <= lo <= hi < next + |Slots(rest)|
      && forall j :: lo - next <= j <= hi - next ==> Slots(rest)[j].group.None?
  {
    var b, rest := doc[0], doc[1..];
    FirstBlockBefore(doc, lo - off);
    forall j | lo - off - Size(b) <= j <= hi - off - Size(b)
      ensures Slots(rest)[j].group.None?
    {
      assert Slots(rest)[j] == Slots(doc)[j + Size(b)];
    }
    forall i | 0 <= i < |rest| ensures rest[i] == doc[i + 1] { }
  }

  lemma {:induction false} WrapNodesSlots(doc: seq<Block>, off: int, lo: int, hi: int, h: Head)
    requires NoEmptyGroups(doc)
    requires off <= lo <= hi < off + |Slots(doc)|
    requires forall j :: lo - off <= j <= hi - off ==> Slots(doc)[j].group.None?
    ensures UpdatedOn(Slots(doc), Slots(WrapNodes(doc, off, lo, hi, h)), off, lo, hi, Regroup(h))
  {
    if off == lo {
      WrapHereSlots(doc, off, lo, hi, h);
    } else {
      WrapRestRequires(doc, off, lo, hi);
      var b, rest := doc[0], doc[1..];
      var next := off + Size(b);
      var wrapped := WrapNodes(rest, next, lo, hi, h);
      WrapNodesSlots(rest, next, lo, hi, h);
      SlotsCons(b, wrapped);
      UpdatedOnAppend(BlockSlots(b), BlockSlots(b), Slots(rest), Slots(wrapped), off, lo, hi, Regroup(h));
    }
  }

  /** Wrapping never changes how many lowest blocks there are. */
  lemma {:induction false} WrapNodesSize(doc: seq<Block>, off: int, lo: int, hi: int, h: Head)
    ensures |Slots(WrapNodes(doc, off, lo, hi, h))| == |Slots(doc)|
  {
    if doc != [] {
      if off == lo && lo <= hi && SinglesPrefix(doc, hi - lo + 1) {
        WrapHereSize(doc, hi - lo + 1, h);
      } else {
        WrapNodesSize(doc[1..], off + Size(doc[0]), lo, hi, h);
        SlotsCons(doc[0], WrapNodes(doc[1..], off + Size(doc[0]), lo, hi, h));
      }
    }
  }

  lemma {:induction false} WrapNodesWellFormed(doc: seq<Block>, off: int, lo: int, hi: int, h: Head)
    requires WellFormed(doc)
    requires IsListFormat(h.kind) && h.align.None?
    ensures WellFormed(WrapNodes(doc, off, lo, hi, h))
  {
    if doc != [] {
      if off == lo && lo <= hi && SinglesPrefix(doc, hi - lo + 1) {
        var n := hi - lo + 1;
        var g := Group(h, Paras(doc[..n]));
        assert WellFormedBlock(g) by {
          forall i | 0 <= i < n ensures WellFormedPara(Paras(doc[..n])[i]) {
            assert WellFormedBlock(doc[i]);
          }
        }
        assert WellFormed(doc[n..]);
        WellFormedAppend([g], doc[n..]);
        assert WrapNodes(doc, off, lo, hi, h) == [g] + doc[n..];
      } else {
        var rest := WrapNodes(doc[1..], off + Size(doc[0]), lo, hi, h);
        assert WellFormedBlock(doc[0]);
        WrapNodesWellFormed(doc[1..], off + Size(doc[0]), lo, hi, h);
        WellFormedAppend([doc[0]], rest);
        assert WrapNodes(doc, off, lo, hi, h) == [doc[0]] + rest;
      }
    }
  }

  /** `result` is `doc` with its top-level lowest blocks lo..hi, and nothing else,
      put into one new container with attributes h, in their place. */
  ghost predicate WrappedOnce(doc: seq<Block>, off: int, lo: int, hi: int, h: Head, result: seq<Block>)
  {
    exists i :: && 0 <= i <= i + (hi - lo + 1) <= |doc|
                && off + |Slots(doc[..i])| == lo
                && (forall k :: i <= k < i + (hi - lo + 1) ==> doc[k].Single?)
                && result == doc[..i] + [Group(h, Paras(doc[i..i + (hi - lo + 1)]))] + doc[i + (hi - lo + 1)..]
  }

  /** The range starts at the front: its blocks become the new container. */
  lemma WrapAtFront(bs: seq<Block>, post: seq<Block>, lo: int, hi: int, h: Head)
    requires forall i :: 0 <= i < |bs| ==> bs[i].Single?
    requires |bs| == hi - lo + 1 > 0
    ensures WrapNodes(bs + post, lo, lo, hi, h) == [Group(h, Paras(bs))] + post
  {
    var doc, n := bs + post, hi - lo + 1;
    assert doc[..n] == bs && doc[n..] == post;
    assert SinglesPrefix(doc, n);
  }

  /** A block that ends before the range, or holds nothing, is kept and passed over. */
  lemma WrapPassesOver(doc: seq<Block>, off: int, lo: int, hi: int, h: Head)
    requires doc != [] && off + Size(doc[0]) <= lo
    requires off == lo ==> doc[0].Group?
    ensures WrapNodes(doc, off, lo, hi, h) == [doc[0]] + WrapNodes(doc[1..], off + Size(doc[0]), lo, hi, h)
  {
  }

  /** When the range is exactly the top-level lowest blocks `bs`, wrapping puts
      them, and nothing else, into one new container in their place. */
  lemma {:induction false} WrapNodesShape(pre: seq<Block>, bs: seq<Block>, post: seq<Block>,
                                          off: int, lo: int, hi: int, h: Head)
    requires forall i :: 0 <= i < |bs| ==> bs[i].Single?
    requires off + |Slots(pre)| == lo <= hi
    requires |bs| == hi - lo + 1
    ensures WrapNodes(pre + bs + post, off, lo, hi, h) == pre + [Group(h, Paras(bs))] + post
    decreases |pre|
  {
    if pre == [] {
      assert pre + bs + post == bs + post;
      WrapAtFront(bs, post, lo, hi, h);
    } else {
      var b, rest, g := pre[0], pre[1..], Group(h, Paras(bs));
      var doc := pre + bs + post;
      calc {
        WrapNodes(doc, off, lo, hi, h);
      == { assert doc[0] == b && doc[1..] == rest + bs + post;
           assert |Slots(pre)| == Size(b) + |Slots(rest)|;
           WrapPassesOver(doc, off, lo, hi, h); }
        [b] + WrapNodes(rest + bs + post, off + Size(b), lo, hi, h);
      == { WrapNodesShape(rest, bs, post, off + Size(b), lo, hi, h); }
        [b] + (rest + [g] + post);
      == { assert pre == [b] + rest; }
        pre + [g] + post;
      }
    }
  }

  /** Lowest blocks lo..hi outside every container are consecutive top-level blocks. */
  lemma {:induction false} UngroupedRange(doc: seq<Block>, off: int, lo: int, hi: int)
    requires NoEmptyGroups(doc)
    requires off <= lo <= hi < off + |Slots(doc)|
    requires forall j :: lo - off <= j <= hi - off ==> Slots(doc)[j].group.None?
    ensures exists i :: 0 <= i <= |doc| && off + |Slots(doc[..i])| == lo && SinglesPrefix(doc[i..], hi - lo + 1)
    decreases |doc|
  {
    if off == lo {
      UngroupedPrefix(doc, hi - lo + 1);
      assert doc[..0] == [] && doc[0..] == doc;
    } else {
      WrapRestRequires(doc, off, lo, hi);
      var rest, next := doc[1..], off + Size(doc[0]);
      UngroupedRange(rest, next, lo, hi);
      var i :| 0 <= i <= |rest| && next + |Slots(rest[..i])| == lo && SinglesPrefix(rest[i..], hi - lo + 1);
      assert doc[..i + 1] == [doc[0]] + rest[..i];
      SlotsCons(doc[0], rest[..i]);
      assert doc[i + 1..] == rest[i..];
    }
  }

  /** Under the requirements of WrapNodesSlots, wrapping makes exactly one new
      container, around exactly the range, and keeps every other block. */
  lemma WrapNodesOnce(doc: seq<Block>, off: int, lo: int, hi: int, h: Head)
    requires NoEmptyGroups(doc)
    requires off <= lo <= hi < off + |Slots(doc)|
    requires forall j :: lo - off <= j <= hi - off ==> Slots(doc)[j].group.None?
    ensures WrappedOnce(doc, off, lo, hi, h, WrapNodes(doc, off, lo, hi, h))
  {
    var n := hi - lo + 1;
    UngroupedRange(doc, off, lo, hi);
    var i :| 0 <= i <= |doc| && off + |Slots(doc[..i])| == lo && SinglesPrefix(doc[i..], n);
    var pre, bs, post := doc[..i], doc[i..i + n], doc[i + n..];
    assert doc == pre + bs + post;
    forall k | 0 <= k < n ensures bs[k].Single? {
      assert bs[k] == doc[i..][k];
    }
    WrapNodesShape(pre, bs, post, off, lo, hi, h);
  }
}
