# File-system tree: a Dafny model

This project models the core of a small Java program. The program mirrors
a directory subtree of a filesystem as an in-memory tree, then answers two
queries over that tree:

- `filesOfType(type)` lists the absolute paths of all files whose path ends
  with `type`.
- `findFile(name)` returns the absolute path of the first file called
  `name`, or `""` if there is none.

The core consists of two classes:

- `NLNode<T>` is a tree node. It holds a payload, a parent link and an
  ordered list of children.
- `FileStructure` builds the tree from a root `FileObject` and implements
  the two queries.

## How the model is laid out

| file | module | what it holds |
|---|---|---|
| `wrappers.dfy` | `Wrappers` | `Option` (Java's `null`) and `Result` (a checked exception) |
| `entries.dfy` | `Entries` | `Entry`, the model of a `FileObject`; `EndsWith`; `Walk`, the pre-order of the entries reachable from a root |
| `nlnode.dfy` | `NLNodes` | `NLNode` on a heap of node records, so parent links are indices; link consistency |
| `file_structure.dfy` | `FileStructure` | the built tree as an immutable `Node`, the constructor, the queries and their specifications |
| `structure_heap.dfy` | `StructureHeap` | `structureHelp` run step by step on the `NLNodes` heap, and proof that the result has consistent links |
| `scenarios.dfy` | `Scenarios` | two small filesystems worked through the model |

The model uses two views of the same tree:

- The functional `Node` tree has no parent field, so a parent is simply the
  node whose `children` contains the child. The queries are modelled as
  methods over this tree. Their loops follow the Java `while` loops over
  child iterators, and the recursion follows the Java recursion.
- The `NLNodes` heap models the Java objects as records addressed by index.
  This is where `setParent`, `addChild` and the parent/child invariant
  live. `StructureHeap.BuildHeap` replays the constructor on the heap;
  its contract is the predicate `StructureHeap.HeapOf`, which lists what
  the built heap satisfies.
  Because nodes are allocated depth-first, the resulting heap is exactly
  the pre-order `Layout` of the functional tree. That fact links the two
  views.

Each query is stated against an independent specification. `Visited` is
the sequence of payloads the recursion examines: a node, then the children
of directory nodes only. `FilePaths` and `FirstFound` filter and search that
sequence. On a built tree, `Visited` equals the pre-order of all nodes
(`VisitedIsPreOrder`), which in turn equals `Walk` over the filesystem
entries (`BuildMirrorsWalk`).

Both queries take the `Structure` as an immutable value and have no
`modifies` clause, so they never change the tree. Their postconditions
determine the result uniquely. Calling a query twice with the same
arguments therefore gives the same answer.

`findFile` decides whether a recursive call found something by testing
`!absolutePath.equals("")` (`src/FileStructure.java:156`). So a file with
the right name whose absolute path is `""` counts as a miss, and the search
continues to later siblings. The model keeps that behaviour: `Found`
requires a non-empty path. For real filesystems, where absolute paths are
never empty, the result is the first file with that name in pre-order.

## Model

| member | source | states |
|---|---|---|
| `NLNodes.NewEmptyNode` | src/NLNode.java:30-34 | the no-argument constructor yields a fresh node with no parent, no data and no children, and leaves every existing node as it was |
| `NLNodes.NewNode` | src/NLNode.java:39-43 | `NLNode(d, p)` yields a fresh node with data `d`, parent `p` and no children; `p`'s children are not touched |
| `NLNodes.SetParent` | src/NLNode.java:50-63 | after `setParent(p)`, `getParent` returns `p`; the node's data and children and every other node, including old and new parent, are unchanged |
| `NLNodes.SetData` | src/NLNode.java:99-110 | after `setData(d)`, `getData` returns `d`; the parent, children and every other node are unchanged |
| `NLNodes.AddChild` | src/NLNode.java:70-73 | after `addChild(c)`, `c`'s parent is this node and the children list is the old list with `c` appended exactly once more; this node's data, and its parent unless `c` is the node itself, are unchanged |
| `NLNodes.AttachFreshKeepsLinks` | src/NLNode.java:70-73 | creating a node and attaching it with `addChild` keeps every parent link pointing at a node listing the child, and every child link pointing at a node whose parent link points back |
| `NLNodes.SetParentAloneBreaksLinks` | src/NLNode.java:50-53 | `setParent` alone, moving a listed child elsewhere, leaves the old parent listing a node that no longer points back |
| `FileStructure.Build` | src/FileStructure.java:39-59 | below a directory the children are one per enumerated entry, in enumeration order, each holding that entry; any other entry is a leaf |
| `FileStructure.BuildSeq` | src/FileStructure.java:48-57 | the loop over a directory's entries builds exactly one subtree per entry, in order |
| `FileStructure.NewStructure` | src/FileStructure.java:23-32 | construction fails exactly when the root `FileObject` cannot be made, with that error; otherwise the root holds the root entry, has no children unless it is a directory, the whole tree is the one `structureHelp` builds from that entry, and its pre-order is the walk of the filesystem |
| `FileStructure.FilesOfType` | src/FileStructure.java:76-86 | the result is the absolute paths of the files examined whose path ends with `type`, in traversal order, and a path occurs exactly when such a file has it |
| `FileStructure.FileTypeHelp` | src/FileStructure.java:96-121 | the list given is extended with the matching paths below `r`, in pre-order, with children in stored order; directories are never emitted |
| `FileStructure.FindFile` | src/FileStructure.java:129-132 | the result is the path of the first file examined that is named `name` with a non-empty path, and it is `""` exactly when there is none |
| `FileStructure.FinderHelper` | src/FileStructure.java:134-163 | the same for the subtree at `r`; a ghost count of the nodes examined is the position of the match plus one, so nothing after the first match is searched |
| `FileStructure.FirstFound` | src/FileStructure.java:152-158 | the position returned holds a match and no earlier position does, or no position matches |
| `FileStructure.FilePathsMembers` | src/FileStructure.java:101-105 | a path is in the filtered list exactly when some file of the sequence has it and it ends with the suffix |
| `FileStructure.BuildMirrorsWalk` | src/FileStructure.java:44-57 | the built tree has one node per reachable entry, in pre-order: nothing is dropped, duplicated or reordered |
| `FileStructure.BuildWellFormed` | src/FileStructure.java:29-31 | in a built tree only directory nodes have children |
| `FileStructure.WellFormedLeaves` | src/FileStructure.java:47 | in such a tree every non-directory node, wherever it sits, has no children |
| `FileStructure.VisitedIsPreOrder` | src/FileStructure.java:101-118 | when only directories have children, the queries examine every node of the tree, in pre-order |
| `FileStructure.FilesOfTypeOnBuilt` | src/FileStructure.java:76-121 | on a built structure, `filesOfType` lists the paths of all reachable files ending with `type`, in pre-order of the filesystem |
| `FileStructure.FindFileOnBuilt` | src/FileStructure.java:129-163 | on a built structure, `findFile` returns the path of the first reachable file named `name` with a non-empty path, in pre-order of the filesystem |
| `StructureHeap.HelpLoopIsAttach` | src/FileStructure.java:48-57 | running the loop of `structureHelp` on the heap appends the pre-order layout of the built subtrees and registers their roots, in order, as children of the node |
| `StructureHeap.BuildHeapIsLayout` | src/FileStructure.java:23-32 | the heap the constructor builds is the pre-order layout of the functional tree |
| `StructureHeap.LayoutConsistent` | src/FileStructure.java:50-54 | in that layout the root has no parent and every other node has one; every parent link points at a node listing the child, every child link points at a node whose parent link points back, and each node lists its children once each, in allocation order |
| `StructureHeap.LayoutData` | src/FileStructure.java:44-57 | position `j` of the layout holds the payload of the `j`-th node in pre-order |
| `StructureHeap.BuildHeap` | src/FileStructure.java:23-59 | the heap built from a root entry has one node per reachable entry, in pre-order; the root is at index 0 without a parent and every other node has a parent; the parent/child links are consistent; and each node lists, once each and in enumeration order, the nodes of exactly the entries its directory enumerates |
| `StructureHeap.HelpIsAttach` | src/FileStructure.java:39-59 | `structureHelp` on a node holding `e` appends the layout of `e`'s built children and registers them under the node; on a non-directory it changes nothing |
| `StructureHeap.LayoutAscending` | src/FileStructure.java:50-52 | every node of a laid-out tree lists its children in strictly increasing index order, so no child is listed twice |
| `StructureHeap.LayoutShape` | src/FileStructure.java:50-52 | in the layout of a tree, every record's child list names, in order, the records holding that node's children |
| `StructureHeap.LayoutListsEntries` | src/FileStructure.java:48-52 | in the heap built from `e`, the record of the `j`-th reachable entry has as many children as that entry lists, and its `k`-th child holds the `k`-th listed entry |
| `StructureHeap.LayoutOfBuild` | src/FileStructure.java:23-59 | the layout of the built tree has every property promised for the constructor's heap, non-root parents and once-only child lists included |
| `FileStructure.BuiltSubtrees` | src/FileStructure.java:39-59 | every subtree of a built tree is exactly the tree built from its own root entry |
| `Scenarios.NestedWalk` | src/FileStructure.java:39-59 | the walk of `/a` with `x.txt` and `b/y.txt` visits `/a`, `/a/x.txt`, `/a/b`, `/a/b/y.txt` |
| `Scenarios.NestedFilesOfType` | src/FileStructure.java:96-121 | `.txt` on that tree lists `/a/x.txt` then `/a/b/y.txt` |
| `Scenarios.NestedFindFile` | src/FileStructure.java:134-163 | `y.txt` on that tree is found as `/a/b/y.txt`, past the file and directory before it |
| `Scenarios.NestedMissingFile` | src/FileStructure.java:134-163 | `missing.txt` on that tree yields `""` |
| `Scenarios.SingleFileRoot` | src/FileStructure.java:29-31 | a root that is a file has no children and is listed only for suffixes its path ends with |

## Left out

- `FileObject` and `FileObjectException` are not part of this model. They wrap native filesystem calls. An `Entry` records what the code asks of a `FileObject`. Failure to construct one is the `resolve` parameter of `NewStructure`, which may return an error.
- `ListNodes` is not part of this model. Children are a `seq`, and `add` is assumed to append.
- `getChildren(Comparator)` is not modelled. It returns whatever `ListNodes.sortedList` produces, and that code is not available. It does not change the stored order, and neither query uses it.
- `getRoot`, `getParent`, `getData` and `getChildren` are plain field reads: the `root` field and `GetParent`, `GetData`, `GetChildren`.
- The call to `directoryFiles()` on a node that is not a directory (`src/FileStructure.java:44`) is not modelled. Its result is unused. The `entries` of a non-directory `Entry` are never read.
- The iterator objects are not modelled, including the unused one at `src/FileStructure.java:81`. Results are sequences.
- Symbolic-link cycles and enumerations that never end are not modelled. An `Entry` is a finite tree, so the build always terminates.
- A payload that is itself `null` is modelled only through `Option` in `NLNodes`. The functional `Node` always holds an `Entry`.
- `null` arguments are not modelled, because a Dafny `string` cannot be null. In Java, `filesOfType(null)` throws a `NullPointerException` from `endsWith` (`src/FileStructure.java:103`) once it reaches a file, and `findFile(null)` returns `""` because `equals(null)` is false (`src/FileStructure.java:141`).
- Strings are sequences of Unicode scalar values, while Java's `endsWith` and `equals` compare UTF-16 code units. The two agree except on strings holding unpaired surrogates, which the model cannot represent.
- `FileStructure.FindFile`: a matching file whose absolute path is `""` is treated as not found, as the code does. The contract is therefore weaker than "first file with that name" when such a path exists.
