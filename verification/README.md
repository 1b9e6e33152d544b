# Models of libfdt, the XenStore server and vchan

This project models three parts of a Xen control-domain library for Zephyr and proves what they
promise.

* **libfdt** (`libfdt/`): one byte array holds a header, a reserve map, a structure block of tagged
  tokens and a strings block, as in sections 5.2 to 5.5 of the Devicetree Specification v0.4. A
  sequential writer, an editor that splices in place and an overlay merger all write this format,
  a set of readers walks it by offsets, and `xen-dom-mgmt/src/xen-dom-fdt.c` copies subtrees from
  one blob to another. The model gives a blob its meaning as a tree (`FdtNode.Decodes`), and proves
  that every writer and editor refines an operation on trees, that every reader answers for the tree,
  and that what one side writes the other reads back.
* **The XenStore server** (`xenstore-srv/`, `xenstore-common/`): a mutable tree with a permission
  list on every entry, a registry of watches with reference-counted pending events, and messages
  reassembled from byte rings. The model states the tree as a map from component lists to values,
  permissions and child names, and treats the watch registry as a state machine over the critical
  sections of all threads.
* **vchan** (`vch/`): two byte rings in one page with free-running 32-bit indices.

How the model is laid out:

* `Bytes`, `Seqs`, `Options`, `Decimal`: words, slices, printed numbers.
* `FdtTokens`, `FdtTree`, `FdtRead`, `FdtNode`: `fdt_next_tag`, the symbols and trees behind a token
  stream, the offset-based readers, and what they answer at each node.
* `FdtBlob`, `FdtSplice`, `FdtMoves`, `FdtEdit`, `FdtEditNode`, `FdtInplace`: the editing calls as
  functions of the blob, and the proof that each replaces exactly its own tokens. `FdtEditor` is the
  class that performs them on a byte array.
* `FdtOverlay`, `FdtRoom`, `FdtMerge`: overlay merging, the room it takes and what it means.
  `FdtPhandle`, `FdtFixups`, `FdtCells`, `FdtRenumber`: renumbering. `FdtOverlayer` and
  `FdtRenumberer` hold the recursive loops.
* `FdtSw`, `FdtSwProof`, `FdtSwRun`, `FdtCopy`, `FdtWriter`: the sequential writer, its runs, its
  round trip, subtree copies, and the class over a window of memory that can move.
* `FdtCheck`, `FdtAccept`, `FdtNav`: the full check and navigation.
* `FdtPath`, `FdtPathWalk`, `FdtPathExact`, `FdtPathMiss`: `fdt_get_path`, for every offset.
  `FdtLookup`, `FdtAlias`: looking a path up again.
* `Rings`, `RingLine`, `Vchan`: rings shared by two parties, and vchan on top of them.
  `XsTransport`, `XsSession`, `XsLink`, `XsReplies`: XenStore messages on such rings, both ways.
* `XsPath`, `XsStore`, `XsTeardown`, `XsServer`, `XsNotify`, `XsHearing`, `XsWatches`, `XsLocks`,
  `XsPerms`: the store.

Where the source updates things in place the model has classes and methods (`FdtEditor.Editor`,
`FdtWriter.SwWriter`, `XsServer.Store`, `XsLink.SharedRing`, `XsLink.Connection`, `Vchan.Page`, and
the loops of `FdtOverlayer`, `FdtRenumberer`, `FdtNav`, `FdtPath`, `FdtLookup`, `FdtAlias`,
`FdtCheck`, `XsPath`, `XsPerms`, `XsNotify`), each proved equal to a function whose properties the
lemmas state.

Conventions. A tree node is named by its *path*, the list of child indices from the root.
`Refines(b, t, p, c, n)` says: blob `c` stands for tree `t` with the node at `p` turned into `n`,
everything in front of the structure block is unchanged, and every node at or before `p` keeps its
offset. `Inplace(b, t, c, u)` says: `c` stands for `u`, which has the shape of `t`, and every token of
`c` sits where it sat in `b`. An outcome `Wild` (in the server `Undefined`) marks a call that reads
or writes outside the blob or buffer it works on, `Endless` one that never returns; after either
nothing is promised. Pointers are taken to be wider than 32 bits, as on the 64-bit targets.

Things found on the way, each with its input and its exact condition:

* The length test of a partial store adds in 32 bits: index plus length from 2^32 on passes it and
  the store leaves the property (`FdtInplace.WildStore`, `FdtInplace.StoreInside`).
* An overlay's fixups are read before any test: a listed offset is raised exactly if it lies in its
  value, refused exactly if it lies behind the value and in the blob, and otherwise read outside the
  blob (`FdtFixups.VerdictExact`, `FdtFixups.WildCell`).
* `fdt_get_path` steps in front of its buffer for an offset at or behind the end of the root
  (`FdtPathMiss.GetPathWild`), and reports a wrong path, or NOSPACE, behind a node with a slash in its
  name (`FdtPathExact.SlashedSibling`, `FdtPathExact.SlashedNoSpace`, `FdtPathExact.GetPathExact`).
* `fdt_path_offset` of the path that `fdt_get_path` gives can miss the node: exactly when its names
  lead elsewhere, which for names without slashes means that an earlier sibling on the way matches
  under the unit-address rule (`FdtLookup.PathInverse`). With aliases that lead to aliases for ever it
  never returns (`FdtAlias.EndlessExactly`).
* `fdt_property` with a name longer than the buffer stores in front of it (`FdtSw.WildExactly`).
* An overlay phandle of zero is raised onto a phandle the base may already use; no other one is
  (`FdtRenumber.ApartExact`). A phandle whose own cell is listed is raised twice
  (`FdtRenumber.RaisedTwice`).
* `fdt_check_full` refuses a decodable blob exactly when its root has a name or a NOP follows the
  root (`FdtAccept.AcceptedExactly`).
* A message of a type that has no handler is never let go: a run reaches that state, and from then on
  no byte is read (`XsSession.UnknownTypeReached`, `XsSession.UnknownTypeSticks`).
* A XenStore write to the path `/` changes nothing and succeeds (`XsStore.RootWriteLost`,
  `XsStore.WriteSeen`).
* A removal is not validated: some watch the entry concerns hears nothing unless the key is the one
  spelling of its components (`XsHearing.RemovalHeardExactly`); a relative key, one with a separator
  at its end and `/a//b` are such keys (`XsNotify.RemovedUnheard`, `XsHearing.DoubledUnheard`).
  Removing the root is undefined (`XsNotify.RemoveNotifying`).
* A watch event is dropped, for an error without a request, exactly if its text exceeds the payload
  limit; a token of 4093 bytes makes a watch on the root deaf (`XsWatches.DeliveryExact`,
  `XsWatches.LongTokenDeaf`, `XsWatches.LostEvent`).
* A traversal whose callback writes can deadlock with a notification; a section can exactly if it
  takes the dispatch lock under the tree lock (`XsLocks.TraverseDeadlocks`, `XsLocks.DeadlocksExactly`).

## Model

| member | source | states |
|---|---|---|
| FdtTokens.NextTag | libfdt/fdt.c:140-221 | each step of the token walk fails or advances by at least four to a multiple of four not beyond the padded block, so every walk ends; a delivered name holds no NUL and a delivered value lies inside the block |
| FdtTokens.NextTagLocal | libfdt/fdt.c:162-221 | a token is decided by its own bytes: moved by a multiple of four it is delivered unchanged |
| FdtTree.FlatInjective | libfdt/fdt.c:162-221 | the symbols of a tree followed by anything determine the tree and what follows: token streams are uniquely readable |
| FdtNode.DecodesUnique | libfdt/fdt.c:162-221 | a structure block with its strings stands for at most one tree |
| FdtNode.FindPropAt | libfdt/fdt_ro.c:397-425 | property lookup at a node's offset finds the first property of that name and reports NOTFOUND exactly when the node has none |
| FdtNode.HuntAt | libfdt/fdt_ro.c:228-245 | among a node's direct children the lookup returns the first one the name selects, whatever lies below the children, and NOTFOUND if none |
| FdtNode.NextAt | libfdt/fdt.c:298-313 | from child k the next subnode is child k + 1, and NOTFOUND behind the last |
| FdtNode.NodeEndAt | libfdt/fdt_wip.c:73-81 | the end offset of a node lies behind exactly the tokens of its subtree |
| FdtNav.ListChildren | libfdt/fdt.c:287-313 | the loop over first and next subnode delivers the list that Listed defines |
| FdtNav.ChildrenExact | libfdt/fdt.c:287-313 | that list is the offsets of exactly the direct children, in order |
| FdtNav.SupernodeAt | libfdt/fdt_ro.c:597-633 | for every node and every depth the walk from the root finds the ancestor at that depth, NOTFOUND beyond the node's own depth, and stores the node's depth |
| FdtNav.SupernodeMisses | libfdt/fdt_ro.c:597-633 | an offset where no node begins is refused: BADOFFSET inside the root, NOTFOUND at its end, BADSTRUCTURE behind it |
| FdtNav.FindSupernode | libfdt/fdt_ro.c:597-633 | the loop with its running candidate equals the walk for every input, malformed blobs included |
| FdtNav.ParentExact | libfdt/fdt_ro.c:635-655 | the depth of a node is the length of its path, and its parent is the node one step up; the root has none |
| FdtNav.ParentOfChild | libfdt/fdt_ro.c:647-655 | the parent of any child is the node it is a child of, so parent lookup inverts child listing |
| FdtPathExact.GetPathExact | libfdt/fdt_ro.c:545-595 | NOSPACE whenever the path name with its NUL does not fit; when it fits the answer is that name if and only if no name the walk has taken back, having had room, holds a slash, and otherwise a wrong name or NOSPACE |
| FdtPathExact.DirtyBeforeExact | libfdt/fdt_ro.c:555-564 | that condition in terms of the tree: some node to the left of the path, whose own path fits the buffer, has a slash in its name |
| FdtPathExact.SlashedSibling | libfdt/fdt_ro.c:555-564 | the input that goes wrong: behind a sibling a/b the node c is reported as /a/c |
| FdtPathExact.SlashedNoSpace | libfdt/fdt_ro.c:555-564 | behind the same sibling /ccc gets NOSPACE with six bytes, where it fits |
| FdtPathMiss.GetPathInside | libfdt/fdt_ro.c:545-595 | inside the root the buffer is never left, and an offset where no node begins has no path: BADOFFSET |
| FdtPathMiss.GetPathWild | libfdt/fdt_ro.c:553-595 | for every offset the walk steps in front of its buffer if and only if the offset is at or behind the root's end and the names put into the buffer hold fewer than two slashes |
| FdtPathMiss.GetPathBehind | libfdt/fdt_ro.c:553-595 | behind the root the call is undefined or, when two slashes in names keep it in the buffer, answers BADOFFSET |
| FdtPathMiss.WildWithoutSlashes | libfdt/fdt_ro.c:553-595 | without slashes in names the buffer is left exactly for offsets at or behind the root's end |
| FdtPath.PopToExact | libfdt/fdt_ro.c:556-561 | taking components back stays in the buffer exactly while a slash is left over beyond those taken |
| FdtPath.GetPathInto | libfdt/fdt_ro.c:545-595 | the loop over the caller's buffer, its push, its pop and its walk beyond the root, equals the function for every input, malformed blobs and the undefined step included |
| FdtAlias.LookUpPath | libfdt/fdt_ro.c:253-301 | fdt_path_offset with its recursion through aliases equals its function on every path and blob |
| FdtAlias.EndlessExactly | libfdt/fdt_ro.c:260-274 | the call never returns if and only if every path in its chain of aliases begins with an alias again |
| FdtAlias.SelfAlias | libfdt/fdt_ro.c:260-274 | an alias of itself is such a chain, and an absolute path never is one |
| FdtAlias.TextTerminated | libfdt/fdt_ro.c:528-543 | in front of an end tag every alias value ends in a NUL inside the block |
| FdtLookup.Descend | libfdt/fdt_ro.c:276-295 | the component loop equals the recursive descent |
| FdtLookup.LookupExact | libfdt/fdt_ro.c:253-301 | an absolute path, of whatever text, finds the node its names lead to, at each level the first child a name selects, and NOTFOUND if there is none |
| FdtLookup.PathNameSpells | libfdt/fdt_ro.c:563-572 | what fdt_get_path means by a path is the absolute path exactly if the root has no name |
| FdtLookup.GetThenLookUp | libfdt/fdt_ro.c:253-301 | the text fdt_get_path gives for a node leads back to it if and only if the names in it lead there; under an unnamed root, with names on the way neither empty nor slashed and nothing slashed taken back, exactly under the unit-address condition |
| FdtLookup.PathInverse | libfdt/fdt_ro.c:253-301 | looking up a node's path name returns that node if and only if the names in it lead there; if no name on the way is empty or holds a slash, if and only if at every step no earlier sibling matches under the unit-address rule |
| FdtLookup.OffsetInjective | libfdt/fdt.c:247-285 | different nodes have different offsets |
| FdtCheck.CheckHeaderBounds | libfdt/fdt.c:52-138 | a version 17 header is accepted if and only if magic and versions match, the total size is below two gigabytes and every block lies inside it as plain integers, so no 32-bit sum wraps unnoticed |
| FdtCheck.CheckFull | libfdt/fdt_check.c:13-96 | behind the header and reserve-map checks the loop accepts if and only if the tokens reach END, every name resolves, and leaves are followed by at most one node, unnamed, that closes with the last token |
| FdtCheck.JudgeExact | libfdt/fdt_check.c:31-95 | the same for the walk as a function |
| FdtAccept.AcceptedExactly | libfdt/fdt_check.c:13-96 | a blob that stands for a tree is accepted if and only if its root has no name and no NOP follows it |
| FdtAccept.WriterAccepted | libfdt/fdt_sw.c:337-384 | when the calls that succeeded spell a tree, the finished blob stands for that tree, and passes the full check exactly if its root has no name |
| FdtEdit.SetPropCorrect | libfdt/fdt_rw.c:184-233 | setprop turns the tree into the one with exactly that property set; it succeeds if and only if the bytes it needs beyond those in use fit, and then uses just those and enters just that name; on NOSPACE header, structure, strings and reserve map are unchanged, a freshly added name dropped |
| FdtEdit.AppendPropCorrect | libfdt/fdt_rw.c:291-316 | the same for appending to a value or creating the property; undefined exactly when the two lengths together exceed an int |
| FdtEdit.DelPropCorrect | libfdt/fdt_rw.c:318-331 | delprop removes exactly the first property of that name and cannot run out of room; NOTFOUND leaves the blob as it was |
| FdtEditNode.AddSubnodeCorrect | libfdt/fdt_rw.c:333-375 | the new empty node stands in front of the other children at the returned offset; EXISTS exactly when the name selects a child, NOSPACE exactly when it does not fit, and then nothing changes |
| FdtEditNode.DelNodeCorrect | libfdt/fdt_rw.c:382-394 | deleting a child removes exactly its subtree and always succeeds |
| FdtEditNode.DelRootEmpties | libfdt/fdt_rw.c:382-394 | deleting the root leaves a block without any node, and the strings |
| FdtEditNode.AddThenDelete | libfdt/fdt_rw.c:333-394 | deleting the node just added restores the structure block and the strings byte for byte |
| FdtEditNode.NopPropertyAgrees | libfdt/fdt_wip.c:51-71 | blanking a property leaves the tree that delprop leaves, with the same errors |
| FdtEditNode.NopNodeAgrees | libfdt/fdt_wip.c:73-94 | blanking a node leaves the tree that deleting it leaves |
| FdtEdit.BeforeStable | libfdt/fdt_rw.c:54-95 | replacing a subtree moves no node that starts at or before it |
| FdtMoves.FindStringComplete | libfdt/fdt.c:315-325 | the string search fails only if no offset of the table resolves to the name |
| FdtEditor.Editor.Splice | libfdt/fdt_rw.c:54-95 | the memmove and the header update leave exactly the spliced blob, or nothing on error |
| FdtEditor.Editor.FindName | libfdt/fdt.c:315-325 | the loop over the table finds the first occurrence of the name with its NUL |
| FdtEditor.Editor.FindAddName | libfdt/fdt_rw.c:127-153 | a name found is reused, otherwise it is appended to the table if it fits |
| FdtEditor.Editor.LookUp | libfdt/fdt_ro.c:204-226 | the property loop equals the lookup function |
| FdtEditor.Editor.Add | libfdt/fdt_rw.c:202-233 | performed on the array, adding a property equals its function, roll-back of the name included |
| FdtEditor.Editor.Resized | libfdt/fdt_rw.c:184-200 | performed on the array, resizing a property equals its function |
| FdtEditor.Editor.Set | libfdt/fdt_rw.c:258-289 | performed on the array, setprop equals its function |
| FdtEditor.Editor.Append | libfdt/fdt_rw.c:291-316 | performed on the array, appendprop equals its function |
| FdtEditor.Editor.Delete | libfdt/fdt_rw.c:318-331 | performed on the array, delprop equals its function |
| FdtEditor.Editor.FindSubnode | libfdt/fdt_ro.c:228-245 | the depth loop equals the child lookup |
| FdtEditor.Editor.EndOf | libfdt/fdt_wip.c:73-81 | the depth loop equals the end-of-node function |
| FdtEditor.Editor.AddNode | libfdt/fdt_rw.c:333-375 | performed on the array, adding a node equals its function |
| FdtEditor.Editor.DeleteNode | libfdt/fdt_rw.c:382-394 | performed on the array, deleting a node equals its function |
| FdtEditor.Editor.Blank | libfdt/fdt_wip.c:51-57 | the word loop leaves that many NOP tags and touches nothing else |
| FdtEditor.Editor.NopProp | libfdt/fdt_wip.c:59-71 | performed on the array, blanking a property equals its function, words beyond the buffer undefined |
| FdtEditor.Editor.NopSubtree | libfdt/fdt_wip.c:83-94 | performed on the array, blanking a node equals its function, words beyond the buffer undefined |
| FdtEditor.Editor.SetPart | libfdt/fdt_wip.c:13-31 | performed on the array, the partial store equals its function, the 32-bit sum of its length test included |
| FdtInplace.SetInplaceCorrect | libfdt/fdt_wip.c:13-31 | for every index and length: a partial store changes exactly those bytes of the first property of that name and no offset anywhere in the blob, or is refused exactly by the 32-bit test, or leaves the property |
| FdtInplace.StoreInside | libfdt/fdt_wip.c:26-30 | a store that passes the test stays inside the value if and only if index plus length is below 2^32 |
| FdtInplace.WildStore | libfdt/fdt_wip.c:26-30 | four bytes at offset 2^32 - 4 pass the test on every property and lie outside it |
| FdtInplace.InplaceOffset | libfdt/fdt_wip.c:13-49 | after stores in place every path still leads to the same offset, before and behind |
| FdtOverlay.TargetCorrect | libfdt/fdt_overlay.c:567-574 | the base node for an overlay child is the one its name selects, or a new one in front exactly if that fits |
| FdtOverlay.ApplyNodeCorrect | libfdt/fdt_overlay.c:542-587 | merging an overlay node fails only for want of room, exactly when the merge of the two trees, counted step by step, would exceed the buffer; otherwise the base stands for the recursive merge and uses that many bytes, everything else and every earlier offset unchanged |
| FdtRoom.ApplyFits | libfdt/fdt_overlay.c:542-587 | it succeeds on every base with room for all nodes, properties and names of the overlay node anew |
| FdtMerge.MergePropsLookup | libfdt/fdt_overlay.c:547-562 | in the merge a property has the overlay's last value if the overlay sets it and the base's otherwise |
| FdtMerge.MergeKidsLookup | libfdt/fdt_overlay.c:564-584 | for unambiguous names the children of the merge are united by name: common ones merged, the others as they were |
| FdtOverlayer.Apply | libfdt/fdt_overlay.c:542-587 | the recursive loops over the overlay, editing the base in place, equal the merge function of blobs |
| FdtOverlayer.ApplyProperties | libfdt/fdt_overlay.c:547-562 | its property loop likewise |
| FdtOverlayer.Destination | libfdt/fdt_overlay.c:567-574 | adding or finding the base node equals its function |
| FdtPhandle.AdjustNodeCorrect | libfdt/fdt_overlay.c:101-162 | the recursive loop raises every phandle property below the node, in place, and fails exactly when one is not a word or would reach the top of the range |
| FdtFixups.FixNodeCorrect | libfdt/fdt_overlay.c:205-291 | on every decodable overlay the recursive loops over a fixup node do to the blob what the same loops do to the tree: the same cells raised in the same order, in place, the same error, the same read outside the blob, fixups for the fixup node itself included |
| FdtFixups.VerdictExact | libfdt/fdt_overlay.c:240-268 | for every listed offset of every property: raised if and only if its four bytes lie in the value, BADOVERLAY if and only if they lie behind it and in the blob, undefined if and only if they leave the blob |
| FdtFixups.WildCell | libfdt/fdt_overlay.c:240-268 | every listed offset from 2^31 on is read outside the blob, also those that would pass the length test |
| FdtCells.LiveNodeListed | libfdt/fdt_overlay.c:205-291 | fixups that do not lead into their own subtree raise exactly the cells they list, each once for each time it is listed |
| FdtCells.CellsDecided | libfdt/fdt_overlay.c:205-291 | if every listed offset is read inside the blob the only failure is BADOVERLAY, and if one is not the listing fails |
| FdtFixups.FirstPropertyAt | libfdt/fdt_ro.c:341-349 | the first property offset of a node is that of its first property, NOTFOUND if it has none |
| FdtFixups.NextPropertyAt | libfdt/fdt_ro.c:351-357 | from property k the next one is property k + 1 |
| FdtRenumber.MaxCorrect | libfdt/fdt_ro.c:117-143 | the walk over all nodes finds the largest phandle of the tree |
| FdtRenumber.MaxAbove | libfdt/fdt_ro.c:117-143 | no node's phandle is larger |
| FdtRenumber.MaxReached | libfdt/fdt_ro.c:117-143 | some node has it |
| FdtRenumber.AdjustRaises | libfdt/fdt_overlay.c:101-162 | after success every node with a phandle has its old one plus delta, without wrap, and no other node has one |
| FdtRenumber.LinksKept | libfdt/fdt_overlay.c:205-291 | a cell listed once that held a node's phandle before holds that node's phandle after, and neither number wrapped, as long as no listed cell lies in that node's own phandle properties |
| FdtRenumber.PhandlesApart | libfdt/fdt_overlay.c:823-833 | with delta the largest base phandle every nonzero overlay phandle whose own cell is not listed ends up larger than every base phandle |
| FdtRenumber.ApartExact | libfdt/fdt_overlay.c:823-833 | such a phandle meets one in the base if and only if it was zero |
| FdtRenumber.RaisedTwice | libfdt/fdt_overlay.c:823-833 | a phandle whose own cell is listed, be it in phandle or in linux,phandle, is raised twice, modulo 2^32 |
| FdtRenumber.RenumberCorrect | libfdt/fdt_overlay.c:815-833 | on every decodable pair the first three steps of applying an overlay compute exactly the renumbering of the trees, in place, or its error |
| FdtRenumber.RenumberedListed | libfdt/fdt_overlay.c:205-330 | fixups that list nothing in themselves raise exactly the listed cells of the adjusted tree |
| FdtRenumber.RenumberedTame | libfdt/fdt_overlay.c:205-330 | such fixups fail exactly as their listing does: with BADOVERLAY alone if every listed offset is read inside the blob, and certainly if one is not |
| FdtRenumber.RenumberTame | libfdt/fdt_overlay.c:815-833 | the same of the code on two decoded blobs, for phandles that can be raised |
| FdtRenumber.OverlayReconciled | libfdt/fdt_overlay.c:815-833 | when the code succeeds on two decoded blobs, the overlay blob stands for a tree of the same shape in which every nonzero phandle lies above all base phandles and every reference listed once names its node, phandles with listed cells of their own excepted |
| FdtRenumberer.FindMax | libfdt/fdt_ro.c:117-143 | the loop equals the walk |
| FdtRenumberer.RaisePhandleOf | libfdt/fdt_overlay.c:101-124 | performed on the array, raising one phandle equals its function |
| FdtRenumberer.AdjustPhandles | libfdt/fdt_overlay.c:141-162 | the recursive loop on the array equals its function |
| FdtRenumberer.RaiseCells | libfdt/fdt_overlay.c:240-269 | the loop over cells on the array equals its function |
| FdtRenumberer.UpdateProps | libfdt/fdt_overlay.c:214-270 | the loop over fixup properties on the array equals its function |
| FdtRenumberer.UpdateNode | libfdt/fdt_overlay.c:205-291 | the recursion over fixup nodes on the array equals its function |
| FdtRenumberer.RenumberOverlay | libfdt/fdt_overlay.c:815-833 | the three steps in sequence equal the renumbering function of blobs |
| FdtSwRun.DoCorrect | libfdt/fdt_sw.c:219-335 | each defined writer call adds exactly its token and keeps every earlier token and live string, or fails and leaves both blocks as they were |
| FdtSw.WildExactly | libfdt/fdt_sw.c:250-266 | adding a property is undefined if and only if its name is not in the table and longer than the buffer beside it, because the room is computed without sign |
| FdtSwRun.RunCorrect | libfdt/fdt_sw.c:94-335 | over every run, failing calls and moves to another buffer included, the two blocks never overlap, no earlier token or live string changes, and the tokens read as the calls that succeeded |
| FdtSwRun.FixNamesCorrect | libfdt/fdt_sw.c:359-376 | relocating the name offsets keeps every token apart from the offset itself |
| FdtSwRun.FinishCorrect | libfdt/fdt_sw.c:337-384 | finishing succeeds exactly when the END tag fits, and leaves the relocated tokens, the string table and a tight total size |
| FdtSwRun.RoundTrip | libfdt/fdt_sw.c:219-384 | after any run closed by finish, walking the blob yields exactly the node names, values and property names of the calls that succeeded, in order, with or without name sharing, and the reserve map unchanged |
| FdtSwRun.WholeRun | libfdt/fdt_sw.c:109-384 | from creation to finish the reserve map succeeds exactly if its entries and terminator fit and holds just those, and the tokens read as the calls that succeeded |
| FdtWriter.SwWriter.constructor | libfdt/fdt_sw.c:109-141 | a fresh writer owns a zeroed window with empty blocks |
| FdtWriter.SwWriter.Reserve | libfdt/fdt_sw.c:188-206 | performed in memory, adding a reserve entry equals its function |
| FdtWriter.SwWriter.EndReserve | libfdt/fdt_sw.c:208-217 | performed in memory, closing the reserve map equals its function |
| FdtWriter.SwWriter.GrabSpace | libfdt/fdt_sw.c:94-107 | the structure block grows only if it stays clear of the strings |
| FdtWriter.SwWriter.Begin | libfdt/fdt_sw.c:219-234 | performed in memory, opening a node equals its function |
| FdtWriter.SwWriter.End | libfdt/fdt_sw.c:236-248 | performed in memory, closing a node equals its function |
| FdtWriter.SwWriter.Name | libfdt/fdt_sw.c:250-291 | finding or adding a name below the others equals its function |
| FdtWriter.SwWriter.AddName | libfdt/fdt_sw.c:250-266 | adding a name equals its function, the wrapping room test included |
| FdtWriter.SwWriter.Property | libfdt/fdt_sw.c:293-335 | performed in memory, adding a property equals its function, the added name dropped again on failure |
| FdtWriter.SwWriter.Resize | libfdt/fdt_sw.c:148-186 | head and tail survive the move however the two windows overlap, because of the order of the two copies |
| FdtWriter.SwWriter.TurnNames | libfdt/fdt_sw.c:359-376 | the loop rewrites every name offset in place and nothing else |
| FdtWriter.SwWriter.Finish | libfdt/fdt_sw.c:337-384 | performed in memory, finishing equals its function |
| FdtCopy.CopyNodeCorrect | xen-dom-mgmt/src/xen-dom-fdt.c:704-758 | a copy appends exactly the tokens of the source subtree, NOPs dropped and names entered anew, and succeeds if and only if the bytes of the subtree and of its new names fit; when the room runs out, what it wrote is a first part of that and everything before is kept |
| FdtCopy.CopyRoundTrip | xen-dom-mgmt/src/xen-dom-fdt.c:729-758 | copy and finish both succeed exactly if the subtree and an end tag fit, and the finished blob stands for the source subtree |
| FdtOverlayer.CopyTree | xen-dom-mgmt/src/xen-dom-fdt.c:729-758 | the recursion ends because child and sibling offsets increase, and equals the copy function on every input, null names undefined |
| FdtOverlayer.CopyProperties | xen-dom-mgmt/src/xen-dom-fdt.c:704-727 | the property loop equals its function |
| RingLine.DoGood | xenstore-common/src/xenstore_common.c:106-168 | every step of either side, planned on whatever it last saw of the other's index, keeps all bytes in order and in bounds |
| RingLine.StreamExact | vch/src/vch.c:370-458 | for every interleaving of single copies and index updates, from any common index, what was read is a prefix of what was written, the rest is what the ring holds, and the fill never exceeds the ring, across the buffer's end and the 32-bit wrap |
| RingLine.WriteCall | vch/src/vch.c:424-442 | a two-part write appends the bytes it accepts to what the ring holds |
| RingLine.ReadCall | vch/src/vch.c:381-399 | a two-part read takes the oldest bytes of what the ring holds |
| Vchan.Layout | vch/src/vch.c:137-190 | the buffers are as large as asked, behind the header, inside the page and apart, and the client's read side is the server's write side |
| Vchan.Page.Write | vch/src/vch.c:414-458 | a write appends as many bytes as fit to its ring's contents and leaves the other direction alone |
| Vchan.Page.Read | vch/src/vch.c:370-412 | a read removes the bytes it returns from the front of its ring's contents and leaves the other direction alone |
| XsTransport.RingWriteCorrect | xenstore-common/src/xenstore_common.c:106-135 | a write appends a prefix of its data, empty only if there is no data or no room |
| XsTransport.RingReadCorrect | xenstore-common/src/xenstore_common.c:137-168 | a read removes the oldest bytes, none only if none are asked for or there |
| XsTransport.RingWriteSteps | xenstore-common/include/xenstore_common.h:166-186 | that write is a sequence of steps of the two-party ring, so the other side may act between its parts |
| XsTransport.RingReadSteps | xenstore-common/include/xenstore_common.h:144-164 | likewise for that read |
| XsTransport.HandleInputBytes | xenstore-srv/src/xenstore_srv.c:2028-2098 | a call of handle_input takes bytes from the front of the ring and loses none |
| XsTransport.FeedFrames | xenstore-srv/src/xenstore_srv.c:2046-2090 | the bytes of any ring read move along the stream of messages, handling the next one exactly when it is whole and of a known type |
| XsTransport.FramedExact | xenstore-srv/src/xenstore_srv.c:2007-2090 | between two calls the messages handled are exactly those wholly read up to the first of unknown type; behind that one no byte is read, and before it the server always asks for more |
| XsSession.RequestsExact | xenstore-srv/src/xenstore_srv.c:2028-2090 | for every interleaving of single copies and index updates, with client steps also between the two reads of handle_input: the messages handled are a prefix of those sent, none of unknown type, and between two calls all that are wholly read up to the first such one |
| XsSession.UnknownTypeSticks | xenstore-srv/src/xenstore_srv.c:2007-2026 | once a message without handler is read, no continuation reads a byte or handles a message |
| XsSession.UnknownTypeReached | xenstore-srv/src/xenstore_srv.c:2007-2026 | every stream with such a message has a run that gets there |
| XsSession.HandledExactly | xenstore-srv/src/xenstore_srv.c:2007-2090 | some run handles the first k messages of a stream if and only if all k are of known type |
| XsSession.NextInStep | xenstore-srv/src/xenstore_srv.c:2028-2090 | every step of either side keeps ring, streams and reassembly in step |
| XsReplies.RepliesExact | xenstore-srv/src/xenstore_srv.c:443-478 | from an empty queue and ring, for every interleaving of single copies and index updates, the bytes queued are those the client has read, then those in the ring, then those left in the queue; all are read once both are empty |
| XsLink.SharedRing.Write | xenstore-common/src/xenstore_common.c:106-135 | corrupt indices are refused without change; otherwise the object equals the ring write |
| XsLink.SharedRing.Read | xenstore-common/src/xenstore_common.c:137-168 | corrupt indices are refused without change; otherwise the object equals the ring read |
| XsLink.Connection.Receive | xenstore-srv/src/xenstore_srv.c:2028-2090 | performed on the connection's buffer, handle_input equals its function and takes its bytes from the ring's front; corrupt indices invalidate the client and touch no ring |
| XsLink.Connection.Reply | xenstore-srv/src/xenstore_srv.c:495-545 | queueing a reply adds exactly its encoding behind what is left to send |
| XsLink.Connection.Send | xenstore-srv/src/xenstore_srv.c:443-478 | what the ring holds followed by what is left to send does not change; corrupt indices invalidate the client and touch no ring |
| XsPath.Validate | xenstore-srv/src/xenstore_srv.c:123-161 | accepts the root, and other paths exactly if they have legal characters, no empty component, no trailing separator and at most the length allowed; too long is told apart from malformed |
| XsPath.PathOfTokens | xenstore-srv/src/xenstore_srv.c:391-405 | an accepted absolute path is the one spelling of the components strtok_r finds |
| XsPath.TokensOfPath | xenstore-srv/src/xenstore_srv.c:391-405 | splitting the spelling of a component list gives the list back |
| XsPath.ContainsExact | xenstore-srv/src/xenstore_srv.c:167-186 | on accepted absolute paths containment holds if and only if the parent's components are a prefix of the child's |
| XsPath.ConstructPath | xenstore-srv/src/xenstore_srv.c:287-321 | the result is accepted and absolute and has the payload's components, behind the domain's own directory if the payload is relative; errors exactly for refused or overlong paths |
| XsStore.MayExact | xenstore-srv/src/xenstore_srv.c:323-357 | the control domain and the owner may do everything, another domain exactly what the first element naming it grants, or what the head grants if none does |
| XsStore.LookDetermines | xenstore-srv/src/xenstore_srv.c:59-66 | two trees that show the same at every path are equal: the map view loses nothing |
| XsStore.DirectoryExact | xenstore-srv/src/xenstore_srv.c:574-629 | the child names of an entry are exactly the existing children, each once |
| XsStore.WriteRefines | xenstore-srv/src/xenstore_srv.c:848-963 | a write succeeds if and only if the path is the root or the deepest existing entry, and for further new entries the list given to them, permits it; then exactly the path and the missing entries above it change, new siblings come last, sibling names stay unique and no permission list is empty; at the root nothing changes |
| XsStore.WriteSeen | xenstore-srv/src/xenstore_srv.c:921-945 | a write that succeeds with a value other than the stored one shows it afterwards if and only if the path has a component |
| XsStore.RootWriteLost | xenstore-srv/src/xenstore_srv.c:871-945 | the path / has none, so its write succeeds for any domain and keeps the tree |
| XsStore.GuestCreates | xenstore-srv/src/xenstore_srv.c:809-963 | a guest write that creates entries succeeds exactly when the domain may write the deepest existing ancestor, and the new entry shows the value with that ancestor's permissions |
| XsStore.RemoveRefines | xenstore-srv/src/xenstore_srv.c:695-724 | a removal takes away the entry and everything below it and changes nothing else but its parent's child names |
| XsStore.RemoveUndoesCreate | xenstore-srv/src/xenstore_srv.c:953-958 | removing the first entry a write made gives back the whole tree |
| XsServer.Store.KeyToEntry | xenstore-srv/src/xenstore_srv.c:363-410 | the loops over components and siblings find the entry the path leads to, the root only for /, and none for a path too long, without components or leading nowhere |
| XsServer.Store.DoWrite | xenstore-srv/src/xenstore_srv.c:848-963 | the mutating loop, with its roll-back of the entries made so far, equals the write on trees; a refusal leaves the whole tree as it was |
| XsServer.Store.RemoveRefEntries | xenstore-srv/src/xenstore_srv.c:2264-2273 | the teardown equals its function on trees |
| XsServer.Store.RemoveRefs | xenstore-srv/src/xenstore_srv.c:2236-2262 | the recursive loop over siblings and permission lists equals its function |
| XsTeardown.TeardownExact | xenstore-srv/src/xenstore_srv.c:2236-2273 | afterwards no entry below the root mentions the domain; the survivors are exactly the entries with none of the domain's entries on their path, with value, order and remaining permissions unchanged and no list empty |
| XsTeardown.OnOwnedExact | xenstore-srv/src/xenstore_srv.c:2242-2245 | being on a path of the domain's entries means that some nonempty prefix of the path is owned by it |
| XsTeardown.TeardownRights | xenstore-srv/src/xenstore_srv.c:334-357 | every other domain has the same rights on every surviving entry as before |
| XsNotify.QueueNotifications | xenstore-srv/src/xenstore_srv.c:1081-1144 | the loop over the registry queues the events that Notices defines |
| XsNotify.NotifyExact | xenstore-srv/src/xenstore_srv.c:1081-1144 | exactly one event, in registry order, for each guest watch above the path, or on removal also below it, whose domain may read the existing entry at the event's path, and none for others |
| XsNotify.WriteNotifying | xenstore-srv/src/xenstore_srv.c:1447-1455 | a write that succeeds, with its notification following at once, queues its events on the new tree; a refused one queues none and leaves the tree as it was |
| XsNotify.RemoveNotifying | xenstore-srv/src/xenstore_srv.c:1712-1751 | for every key: removal succeeds exactly on an existing entry other than the root that the caller may write; its events are decided on the tree before the removal, which then equals the removal on trees; the root is undefined, otherwise nothing changes and no event is queued |
| XsNotify.WriteHeard | xenstore-srv/src/xenstore_srv.c:1081-1144 | with the notification following at once, the entry shows the value, and the watches that hear of it are exactly those at or above the path whose domain may read it |
| XsNotify.WriteHeardLater | xenstore-srv/src/xenstore_srv.c:1447-1455 | whatever writes and removals other threads make between the two, short of removing the entry, the same watches hear of it |
| XsNotify.LaterHeard | xenstore-srv/src/xenstore_srv.c:1146-1169 | on any later tree a watch hears exactly if the entry is still there and its domain may read it there |
| XsNotify.RemoveHeard | xenstore-srv/src/xenstore_srv.c:1712-1751 | under an accepted absolute key, which is the one spelling of its components, a watch at or above it hears exactly if its domain may read the entry removed, and one below exactly if it may read its own entry, which goes too |
| XsNotify.RelativeUnheard | xenstore-srv/src/xenstore_srv.c:1763-1775 | under a relative key only a watch on the root can hear |
| XsNotify.TrailingUnheard | xenstore-srv/src/xenstore_srv.c:1763-1775 | under a key with a separator at its end no watch below hears |
| XsNotify.RemovedUnheard | xenstore-srv/src/xenstore_srv.c:1763-1775 | a/b removes /a/b unheard by a watch on /a, and /a/b/ removes /a/b/c unheard by a watch on it |
| XsHearing.RemovalHeardExactly | xenstore-srv/src/xenstore_srv.c:1712-1775 | for any key of legal names whose entry has room for a child: every accepted watch at, above or below the entry gets an event path if and only if the key is the one spelling of its components |
| XsHearing.DoubledUnheard | xenstore-srv/src/xenstore_srv.c:1763-1775 | /a//b removes /a/b, and the watch on /a/b hears nothing |
| XsHearing.EventBelowKey | xenstore-srv/src/xenstore_srv.c:1100-1123 | the path of an event lies at or below the key of its watch |
| XsWatches.NextKeeps | xenstore-srv/src/xenstore_srv.c:1037-1144 | every step of every thread keeps the invariant over counts, locks and control points |
| XsWatches.CountExact | xenstore-srv/src/xenstore_srv.c:980-990 | in every reachable state a watch is allocated exactly while something names it, and its count is its registration plus its pending events plus those on their way into the list |
| XsWatches.NoUseAfterFree | xenstore-srv/src/xenstore_srv.c:1475-1503 | no step of any interleaving touches a watch that has been freed |
| XsWatches.CleanupComplete | xenstore-srv/src/xenstore_srv.c:1958-1982 | when the cleanup of a domain returns nothing refers to it, whatever other threads did between its two critical sections |
| XsWatches.GoneStays | xenstore-srv/src/xenstore_srv.c:1958-1982 | and nothing will until the domain registers a watch again |
| XsWatches.UnregisteredSilent | xenstore-srv/src/xenstore_srv.c:631-645 | for a watch no longer registered no further event is sent, nor an error, in any continuation |
| XsWatches.DeliveryExact | xenstore-srv/src/xenstore_srv.c:1475-1503 | in every reachable state the events ever queued for a registered watch are those taken out, in order, followed by those still pending: none is repeated or overtaken; each taken out is sent unless its text exceeds the payload limit, so none is lost if and only if all texts are within it |
| XsWatches.SentExact | xenstore-srv/src/xenstore_srv.c:631-683 | the events sent are those taken out if and only if each text, without the home directory for a watch set relatively, is at most 4096 bytes |
| XsWatches.LongTokenDeaf | xenstore-srv/src/xenstore_srv.c:507-520 | a watch on / with a token of 4093 bytes fits one request, and every event below the root is dropped |
| XsWatches.LostEvent | xenstore-srv/src/xenstore_srv.c:631-683 | a run in which such an event is queued, taken out and not sent while the watch is registered |
| XsWatches.NoDeadlock | xenstore-srv/src/xenstore_srv.c:1475-1503 | of the registry and pending-event locks: in every reachable state a thread, or the owner of the one it waits for, can go on |
| XsLocks.NeverDeadlocked | xenstore-srv/src/xenstore_srv.c:102-108 | of all five locks: in every run of any number of threads through the server's critical sections, with sections nested in callbacks of watches and traversals, no set of threads waits in a circle, as long as no section takes the dispatch lock under the tree lock |
| XsLocks.OpsOrdered | xenstore-srv/src/xenstore_srv.c:1146-1169 | every such section takes the locks in the order dispatch, tree, registry, pending, stacks, or again, also as a callback |
| XsLocks.DeadlocksExactly | xenstore-srv/src/xenstore_srv.c:1342-1369 | some run of a section beside a notification deadlocks if and only if the section takes the dispatch lock under the tree lock |
| XsLocks.TraverseDeadlocks | xenstore-srv/src/xenstore_srv.c:1342-1369 | a traversal whose callback calls xss_write is such a section |
| XsPerms.LettersExact | xenstore-common/src/xenstore_common.c:12-56 | the four letters and the four combinations of rights correspond one to one, r and b granting reading, w and b writing |
| XsPerms.PassesAgree | xenstore-common/src/xenstore_common.c:58-104 | on every input the counting and the filling pass agree: room decides only whether the list fits |
| XsPerms.ParseBounds | xenstore-common/src/xenstore_common.c:87-94 | every parsed domain id has fifteen bits and every element took at least three bytes |
| XsPerms.RoundTrip | xenstore-srv/src/xenstore_srv.c:1512-1551 | parsing a serialised list with fifteen-bit domain ids gives the same list in the same order |
| XsPerms.Normalises | xenstore-common/src/xenstore_common.c:58-104 | what any accepted text parses to survives being serialised and parsed again |
| XsPerms.ParseWire | xenstore-common/src/xenstore_common.c:58-104 | the loop over the text, filling an array or only counting, equals the parser |
| XsPerms.SerializePerms | xenstore-srv/src/xenstore_srv.c:1512-1551 | the loop over the list equals the serialiser |
| XsPerms.Deserialize | xenstore-srv/src/xenstore_srv.c:760-789 | both passes together return the parsed list, and nothing for an empty or malformed text |
| Decimal.StrtoulOfDec | xenstore-common/src/xenstore_common.c:86-91 | reading a number printed in decimal gives the number and consumes all of the text |

## Left out

Of libfdt:

- The header is a record of fields, not bytes; blobs of a version below 17, misordered blocks, the FDT_ASSUME_* modes and the magic that overlay application erases are not modelled.
- fdt_open_into, fdt_pack, fdt_move, fdt_set_name, reserve-map edits, string lists and compatible matching: easy members beside the ones above.
- `__fixups__` parsing, overlay_merge over fragments, target lookup and overlay_symbol_update: string plumbing.
- Tree properties are for blobs whose properties precede subnodes; renumbering, ancestors and path names also take the root to be at offset 0.
- FdtRenumber.RenumberedListed: fixups that list cells of their own subtree are covered by RenumberCorrect alone, which follows them step by step.
- FdtSwRun.RunCorrect: runs in which no call is undefined (FdtSw.WildExactly says which are).
- FdtMerge.MergeKidsLookup: overlay siblings have different names, and no name is another one without its unit address.

Of the XenStore server and vchan:

- The entry tree is a value that methods replace, not linked nodes: aliasing and the order of frees are not captured.
- Allocation always succeeds, and deadlines expire only in XsWatches (as GiveUp).
- XsServer.Store.DoWrite: paths whose components are legal names.
- XsWatches.CountExact: a new watch enters the model when it is linked; before that only its own thread knows it. Which watch a request repeats is not modelled, a drain that ends early stands for a full output queue, and server-local watches with their callbacks are left out.
- XsSession.RequestsExact: streams within the payload limit; a message beyond it is dropped at its header and its payload is taken for the next header. Invalidating a client ends its run.
- XsNotify.WriteHeardLater: changes of permissions between a write and its notification are not among the changes.
- XsLocks.NeverDeadlocked: lock timeouts, which only release threads, and the join of a client's thread in stop_domain_stored are not steps.
- Request plumbing: handle_set_perms, transactions, timeouts, reads and listings as messages, and the xs_* and xss_* wrappers.
- Vchan.Page.Write: the calls on a live channel with a buffer, without blocking; notify bits, event channels, grants and connection state are left out.
- Hypercalls, event channels, grant mapping, barriers, thread creation, and every other part of the repository.
