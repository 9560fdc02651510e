# Collaborative editor page: formatting, normalization, connection and versions

This project models the core of a collaborative rich-text editor page. The page is built on
Slate, a rich-text editor framework, and Yjs, a shared-document library. Four parts are modelled:

- **Formatting toolbar.** `isMarkActive` and `toggleMark` handle character marks such as
  bold. `isBlockActive` and `toggleBlock` handle block formats (headings, quotes, the two
  list types and the four alignments), together with the `TEXT_ALIGN_TYPES` and
  `LIST_TYPES` tables.
  - The document is a sequence of top-level blocks. A top-level block is either a lowest
    block holding text runs or a list container holding lowest blocks (`Document`).
  - A selection addresses lowest blocks in document order.
  - The three Slate transforms that `toggleBlock` runs are modelled as functions. They are
    `unwrapNodes` with `split`, `setNodes` on the lowest blocks, and `wrapNodes` in a new
    list (`SlateTransforms`). Each is specified lowest block by lowest block, and by what it
    does to the list containers: `setNodes` keeps them all, `unwrapNodes` keeps every block
    outside the range, and `wrapNodes` makes exactly one new list around the range. Each keeps
    the tree well-formed.
  - The toggles are functions on an editor state (`Formatting`). The editor object, whose
    fields the commands update in place, is the class `EditorModel.Editor`. Its methods are
    proved to reach the state the functions describe and to keep the invariant.
- **Normalizer plugin** (`withNormalize`). The editor root must never be empty. An empty
  root gets one empty paragraph. Every other node goes to the normalizer the plugin wraps
  (`Normalize`, `EditorModel.Editor.NormalizeNode`).
- **Connection toggle** (`Connection`). The `connected` flag changes only through the
  transport's `onConnect` and `onDisconnect` callbacks. `toggleConnection` only asks the
  transport to connect or disconnect.
- **Version list** (`Versions`). `createVersion` posts the encoded snapshot and its time,
  then appends the new version. `fetchSnapshots` replaces the list with the server's answer.

The model follows the code in four places where a reader might expect otherwise:

- `createVersion` waits for the save request to finish before it appends. A version is
  therefore added only after a successful save, not optimistically.
- The posted body is `{snapshot, time}`. It carries no client id, although the local entry
  does.
- `isMarkActive` reads Slate's resolved marks. With no pending marks, those are the marks of
  the first text run of the selection. So a mark counts as active on an expanded selection
  when the first run carries it, even if later runs do not
  (`FormattingProperties.BoldThenPlainToggled`), and as inactive when only later runs carry
  it (`FormattingProperties.PlainThenBoldToggled`).
- Toggling a mark twice over an expanded selection does not give the text runs back. Whether
  the mark is active comes back, but the mark is now uniform over the covered runs: on
  everywhere if it was active, off everywhere if not (`Formatting.ToggleMarkTwiceOnSpanRuns`).
  A bold run then a plain run become two bold runs
  (`FormattingProperties.BoldThenPlainToggledTwice`).

## Model

| member | source | states |
|---|---|---|
| Formatting.ResolvedMarks | src/pages/RemoteCursorOverlay/index.tsx:48 | The editor's marks exist exactly when there is a selection |
| Formatting.IsMarkActive | src/pages/RemoteCursorOverlay/index.tsx:47-50 | A mark is never active without a selection. With pending marks it is active iff they hold it set to true. Otherwise it is active iff the first text run of the selection holds it set to true |
| Formatting.AddMark | src/pages/RemoteCursorOverlay/index.tsx:72 | Adding a mark keeps the selection and the number of lowest blocks. Without a selection nothing changes. On an expanded selection it sets the mark on the text runs of exactly the selected lowest blocks, changes nothing else and keeps the pending marks. It adds, removes, splits and merges no block or list: the document keeps its shape (`SameShape`). At a caret the document stays the same and the pending marks become the resolved marks with the mark set to true |
| Formatting.RemoveMark | src/pages/RemoteCursorOverlay/index.tsx:70 | Removing a mark keeps the selection and the number of lowest blocks. Without a selection nothing changes. On an expanded selection it deletes the mark from the text runs of exactly the selected lowest blocks and changes nothing else. It adds, removes, splits and merges no block or list: the document keeps its shape (`SameShape`). At a caret the document stays the same and the pending marks become the resolved marks without the mark |
| Formatting.ToggleMark | src/pages/RemoteCursorOverlay/index.tsx:65-73 | Toggling a mark keeps the selection, and the selection still fits the document |
| Formatting.MarkOpsKeepValid | src/pages/RemoteCursorOverlay/index.tsx:65-73 | Adding and removing a mark keep the editor invariant (a well-formed tree, a fitting selection, no pending marks under an expanded selection), the selection and the number of lowest blocks |
| Formatting.ToggleMarkFlips | src/pages/RemoteCursorOverlay/index.tsx:47-73 | With a selection, toggling a mark flips whether it is active and keeps the invariant |
| Formatting.ToggleMarkTwiceOnCaret | src/pages/RemoteCursorOverlay/index.tsx:65-73 | At a caret, two toggles leave the document and selection unchanged. Every mark is on exactly as before. The only difference is that an explicit false entry for the toggled mark is dropped |
| Formatting.ToggleMarkTwiceOnSpan | src/pages/RemoteCursorOverlay/index.tsx:65-73 | On an expanded selection, two toggles restore whether the mark is active, the selection and the pending marks |
| Formatting.MarkTwiceOnPara | src/pages/RemoteCursorOverlay/index.tsx:69-73 | Removing then adding a mark, or adding then removing it, on a lowest block keeps its text and every other mark, and leaves the mark on in every run exactly when it was active |
| Formatting.ToggleMarkTwiceOnSpanRuns | src/pages/RemoteCursorOverlay/index.tsx:65-73 | On an expanded selection, two toggles leave lowest blocks outside the range untouched. Inside the range they keep texts, containers and other marks, and make the toggled mark uniform: on everywhere if it was active, off everywhere if not |
| Formatting.BlockAttr | src/pages/RemoteCursorOverlay/index.tsx:111-115 | A format is checked against `align` exactly when it is one of the four alignments, and against `type` otherwise |
| Formatting.FindMatch | src/pages/RemoteCursorOverlay/index.tsx:98-106 | The search returns the first position in the range whose lowest block or container has the attribute equal to the format, or reports that no position in the range matches |
| Formatting.IsBlockActive | src/pages/RemoteCursorOverlay/index.tsx:94-109 | A block format is active iff there is a selection and some lowest block in it, or its container, has the inspected attribute equal to the format |
| Formatting.ListIsNotAlign | src/pages/RemoteCursorOverlay/index.tsx:26-27 | No list format is an alignment |
| Formatting.ToggledType | src/pages/RemoteCursorOverlay/index.tsx:132-134 | The type a non-alignment toggle sets is never a list type. It is "paragraph" exactly when the format was active or is "paragraph" itself; otherwise "list-item" for a list format and the format for any other |
| Formatting.NewProperties | src/pages/RemoteCursorOverlay/index.tsx:126-135 | The properties set `align` exactly for an alignment format: cleared when it was active, the format otherwise. Any other format sets `type` to `ToggledType` |
| Formatting.NewPropertiesKeepWellFormed | src/pages/RemoteCursorOverlay/index.tsx:126-136 | Applying the properties `toggleBlock` sets keeps a lowest block well-formed |
| Formatting.ToggleBlock | src/pages/RemoteCursorOverlay/index.tsx:110-142 | Toggling a block format keeps the selection and the pending marks, and the selection still fits the document |
| Formatting.UnwrapThenSet | src/pages/RemoteCursorOverlay/index.tsx:118-136 | Unwrapping then setting properties keeps the tree well-formed and the number of lowest blocks. Selected blocks get the new properties and leave their list when the format is not an alignment. Other blocks are unchanged |
| Formatting.ToggleBlockSlots | src/pages/RemoteCursorOverlay/index.tsx:110-142 | The whole toggle keeps the tree well-formed and the number of lowest blocks, and changes no block outside the selection. Each selected block gets the new properties and is put into a new list of the format exactly when a list is turned on. That list is one new container around exactly the selected blocks, in their place, and every other top-level block of the unwrapped-and-set document is kept as it is |
| Formatting.ToggleAlignEffect | src/pages/RemoteCursorOverlay/index.tsx:126-136 | An alignment toggle sets `align` on every selected lowest block, or clears it when it was active. Types, texts and every block outside the selection stay the same. The containers stay the same too: as many top-level blocks, of the same kinds, and each list with the same attributes and as many items. The invariant holds |
| Formatting.ToggleTypeEffect | src/pages/RemoteCursorOverlay/index.tsx:116-141 | Any other toggle sets the type of every selected lowest block: "paragraph" when the format was active, "list-item" for a list, else the format. It takes the block out of its list and puts it into a new list exactly when a list is turned on. That list is one new container around exactly the selected blocks, in their place; every other top-level block of the unwrapped-and-set document is kept. Other lowest blocks are unchanged and the invariant holds |
| FormattingProperties.ToggleBlockFlips | src/pages/RemoteCursorOverlay/index.tsx:94-142 | With a selection, toggling any block format other than "paragraph" flips whether it is active |
| FormattingProperties.BulletedListToggledOff | src/pages/RemoteCursorOverlay/index.tsx:110-142 | With the caret in the only item of a bulleted list, toggling "bulleted-list" leaves a single paragraph and no list |
| FormattingProperties.PlainThenBoldToggled | src/pages/RemoteCursorOverlay/index.tsx:47-73 | Over a plain run then a bold run, bold is not active. Toggling makes both runs bold and bold becomes active |
| FormattingProperties.BoldThenPlainToggled | src/pages/RemoteCursorOverlay/index.tsx:47-73 | Over a bold run then a plain run, bold is active. Toggling removes it from both runs |
| FormattingProperties.PlainRunsToggled | src/pages/RemoteCursorOverlay/index.tsx:47-73 | Over two plain runs, bold is not active. Toggling makes both runs bold |
| FormattingProperties.BoldThenPlainToggledTwice | src/pages/RemoteCursorOverlay/index.tsx:65-73 | Toggling bold twice over a bold run then a plain run leaves two bold runs, not the original ones |
| SlateTransforms.SetNodesSlots | src/pages/RemoteCursorOverlay/index.tsx:136 | Setting properties applies them to exactly the lowest blocks of the range and leaves every lowest block in a container with the same attributes |
| SlateTransforms.SetNodes | src/pages/RemoteCursorOverlay/index.tsx:136 | Setting properties adds, removes, splits and merges no container: as many top-level blocks, of the same kinds, each list with the same attributes and as many items. `SetNodesSlots` and `SetNodesWellFormed` state the rest |
| SlateTransforms.SetNodesWellFormed | src/pages/RemoteCursorOverlay/index.tsx:136 | Properties that keep a lowest block well-formed keep the tree well-formed |
| SlateTransforms.FlatMapSlots | src/pages/RemoteCursorOverlay/index.tsx:118-125 | Rewriting a document block by block applies a slot-wise change to exactly the range when each block's rewrite does |
| SlateTransforms.FlatMapWellFormed | src/pages/RemoteCursorOverlay/index.tsx:118-125 | Rewriting a document block by block keeps it well-formed when each block's rewrite does |
| SlateTransforms.SplitGroupSlots | src/pages/RemoteCursorOverlay/index.tsx:118-125 | Splitting a list container around the range keeps its items in order, lifts exactly the items in the range out of the list, and leaves the others in copies of the container |
| SlateTransforms.UnwrapNodesSlots | src/pages/RemoteCursorOverlay/index.tsx:118-125 | Unwrapping keeps the lowest blocks in order, takes those of the range out of list containers (unless the format is an alignment), and leaves every other lowest block with the same block and container attributes |
| SlateTransforms.UnwrapNodes | src/pages/RemoteCursorOverlay/index.tsx:118-125 | For an alignment format unwrapping returns the document exactly as it was. `UnwrapNodesSlots`, `UnwrapNodesKeepsOutside` and `UnwrapNodesWellFormed` state the rest |
| SlateTransforms.UnwrapNodesOutside | src/pages/RemoteCursorOverlay/index.tsx:118-125 | A document whose lowest blocks all lie before, or all after, the range comes back exactly as it was |
| SlateTransforms.UnwrapNodesKeepsOutside | src/pages/RemoteCursorOverlay/index.tsx:118-125 | Whatever the format, every top-level block before the range and after it, lists included, is kept exactly as it is; only the blocks holding the range are rewritten |
| SlateTransforms.UnwrapNodesWellFormed | src/pages/RemoteCursorOverlay/index.tsx:118-125 | Unwrapping with `split` keeps the tree well-formed: the parts of a split list that remain are non-empty lists |
| SlateTransforms.WrapNodes | src/pages/RemoteCursorOverlay/index.tsx:138-141 | Wrapping never adds a top-level block. `WrapNodesSlots`, `WrapNodesOnce`, `WrapNodesSize` and `WrapNodesWellFormed` state the rest |
| SlateTransforms.WrapNodesSlots | src/pages/RemoteCursorOverlay/index.tsx:138-141 | Wrapping a range of lowest blocks that are outside any list puts exactly those blocks under a container with the new list's attributes and changes no other lowest block |
| SlateTransforms.WrapNodesShape | src/pages/RemoteCursorOverlay/index.tsx:138-141 | When the range is a run of top-level lowest blocks, wrapping replaces exactly that run with one new container holding them, and keeps the blocks before and after it |
| SlateTransforms.WrapNodesOnce | src/pages/RemoteCursorOverlay/index.tsx:138-141 | Wrapping a range of lowest blocks outside any list makes one new container around exactly the range, in its place, and keeps every other top-level block |
| SlateTransforms.WrapNodesSize | src/pages/RemoteCursorOverlay/index.tsx:138-141 | Wrapping never changes the number of lowest blocks |
| SlateTransforms.WrapNodesWellFormed | src/pages/RemoteCursorOverlay/index.tsx:138-141 | Wrapping in a list container without alignment keeps the tree well-formed |
| Normalize.EmptyParagraph | src/plugins/withNormalize.ts:17-24 | The inserted paragraph is a well-formed lowest block |
| Normalize.InsertAtFront | src/plugins/withNormalize.ts:17-24 | Inserting at path [0] puts the node first and keeps the old children after it |
| Normalize.NormalizeNode | src/plugins/withNormalize.ts:13-24 | The plugin delegates exactly when the node is not the editor or the editor has children |
| Normalize.RootNeverEmpty | src/plugins/withNormalize.ts:6-25 | After a pass over the root, the root has a child, and a non-empty root is left as it was |
| Normalize.RepairedDocument | src/plugins/withNormalize.ts:17-24 | An empty root gets exactly one child, an empty, unmarked paragraph outside any list |
| Normalize.NormalizeIdempotent | src/plugins/withNormalize.ts:13-24 | A second pass over a repaired root delegates and changes nothing |
| Normalize.NormalizeKeepsWellFormed | src/plugins/withNormalize.ts:17-24 | The repair keeps the tree well-formed |
| EditorModel.Editor.constructor | src/pages/RemoteCursorOverlay/index.tsx:161-184 | A new editor has no children, no selection and no pending marks, and satisfies the invariant |
| EditorModel.Editor.NormalizeNode | src/plugins/withNormalize.ts:7-25 | The method delegates exactly as `Normalize.NormalizeNode` says and otherwise inserts the paragraph in place. It keeps the selection, the marks and the invariant |
| EditorModel.Editor.AddMark | src/pages/RemoteCursorOverlay/index.tsx:72 | The editor's new state is `Formatting.AddMark` of its old state, and the invariant is kept |
| EditorModel.Editor.RemoveMark | src/pages/RemoteCursorOverlay/index.tsx:70 | The editor's new state is `Formatting.RemoveMark` of its old state, and the invariant is kept |
| EditorModel.Editor.ToggleMark | src/pages/RemoteCursorOverlay/index.tsx:65-73 | The new state is `Formatting.ToggleMark` of the old one. The invariant is kept, and with a selection the mark's active state flips |
| EditorModel.Editor.ToggleBlock | src/pages/RemoteCursorOverlay/index.tsx:110-142 | Running unwrap, set and wrap in turn on the fields reaches `Formatting.ToggleBlock` of the old state and keeps the invariant |
| Connection.ToggleCall | src/pages/RemoteCursorOverlay/index.tsx:87-93 | The toggle disconnects exactly when connected and connects exactly when not |
| Connection.OnEvent | src/pages/RemoteCursorOverlay/index.tsx:80-81 | After a transport event, the flag is true exactly when the event was a connect |
| Connection.MirrorFollowsLastEvent | src/pages/RemoteCursorOverlay/index.tsx:80-81 | The flag equals what the last transport event said, or its initial value when there was no event |
| Connection.MirrorAppend | src/pages/RemoteCursorOverlay/index.tsx:80-81 | Events delivered in two batches have the same effect as one run |
| Connection.ToggleThenConfirmFlips | src/pages/RemoteCursorOverlay/index.tsx:80-93 | A toggle whose call the transport confirms flips the flag, whatever happened before |
| Connection.ConnectionState.constructor | src/pages/RemoteCursorOverlay/index.tsx:31 | The flag starts false |
| Connection.ConnectionState.ToggleConnection | src/pages/RemoteCursorOverlay/index.tsx:87-93 | Returns the call `ToggleCall` picks for the current flag and changes nothing |
| Connection.ConnectionState.OnConnect | src/pages/RemoteCursorOverlay/index.tsx:80 | Sets the flag as a connect event does |
| Connection.ConnectionState.OnDisconnect | src/pages/RemoteCursorOverlay/index.tsx:81 | Clears the flag as a disconnect event does |
| Versions.Step | src/pages/RemoteCursorOverlay/index.tsx:34-46 | A successful save appends exactly one version, with its time, snapshot and client id, after the old list. A failed save changes nothing. A load replaces the list with the server's answer, or leaves it when the request failed |
| Versions.RunAppend | src/pages/RemoteCursorOverlay/index.tsx:34-46 | Events applied in two batches have the same effect as one run |
| Versions.OnlySavesAppend | src/pages/RemoteCursorOverlay/index.tsx:34-46 | Without a successful load, the list is the old list followed by the versions of the successful saves, in order |
| Versions.LoadReplaces | src/pages/RemoteCursorOverlay/index.tsx:197-203 | After a successful load, the list depends only on the server's answer and later events |
| Versions.VersionList.constructor | src/pages/RemoteCursorOverlay/index.tsx:32 | The list starts empty |
| Versions.VersionList.CreateVersion | src/pages/RemoteCursorOverlay/index.tsx:34-46 | Posts `{snapshot, time}` and updates the list as `Step` says for a save with the given outcome |
| Versions.VersionList.FetchSnapshots | src/pages/RemoteCursorOverlay/index.tsx:197-203 | Updates the list as `Step` says for a load with the given answer |

## Left out

- The React component tree, rendering, the toolbar buttons' event handling and the remote cursor overlay. The buttons only call the modelled functions.
- The network:
  - The save and load requests are inputs. `saved` says whether the save succeeded, and `None` means the load failed.
  - A failed request is an unhandled rejection in the page. In the model it simply leaves the list alone.
- The clock and the snapshot encoder are inputs to `CreateVersion` (`time`, `snapshot`).
- Yjs, the shared document, its history and its cursors, and the transport itself are left out. The transport is reduced to the calls the page makes and the two events it reports back.
- The effect that connects the transport on mount and disconnects it on unmount (index.tsx:188-191). It is a `Connect`/`Disconnect` call like the toggle's, and its effect on the flag again goes through the events.
- React's state closures: `createVersion` appends to the list it captured when the page last rendered. The model appends to the current list, so it does not capture a load that lands while a save is in flight being overwritten.
- The Markdown plugin and the normalizer the plugin wraps. A delegated pass is modelled as leaving the root's children unchanged.
- The console logging in the normalizer.
- Text offsets inside a lowest block. Selections start and end at whole lowest blocks, and `Editor.unhangRange` is the identity.
- Formatting.AddMark: on an expanded selection it marks every text run of the covered lowest blocks. It does not split the first and last runs at the selection's offsets.
- Formatting.RemoveMark: the same simplification as `AddMark`.
- Formatting.ResolvedMarks: with a caret and no pending marks it takes the marks of the first text run of the block. It does not take the run under the caret.
- Formatting.ToggleBlock: lists are one level deep, as the toolbar builds them. Nested lists and lists inside other containers are not modelled.
- SlateTransforms.WrapNodes: its contract covers the case `toggleBlock` produces, a range of lowest blocks outside any list. In other cases it leaves the document's shape alone instead of wrapping around a common ancestor.
- Formatting.ToggleTypeEffect: for a toggle that turns no list on, the top-level blocks wholly before and after the selection are stated unchanged only step by step. `UnwrapNodesKeepsOutside` states it for the unwrap, and `SetNodes` keeps the shape and `SetNodesSlots` the lowest blocks outside the range. There is no single clause of the form `pre + _ + post` for the whole toggle: the block-level frame proof for `setNodes` did not fit the proof budget.
- Selection changes (clicks, typing) are not modelled. Only the rule that pending marks are dropped when the selection is expanded is kept, as part of the invariant.
