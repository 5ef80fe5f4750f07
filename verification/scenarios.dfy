/** Two small filesystems worked through the model: a directory holding a
    file and a subdirectory, and a root that is itself a file. */
module Scenarios {
  import opened Entries
  import opened FileStructure

  function XTxt(): Entry { Entry("x.txt", "/a/x.txt", File, []) }
  function YTxt(): Entry { Entry("y.txt", "/a/b/y.txt", File, []) }
  function DirB(): Entry { Entry("b", "/a/b", Directory, [YTxt()]) }
  function DirA(): Entry { Entry("a", "/a", Directory, [XTxt(), DirB()]) }

  /** `/a` holds `/a/x.txt` and `/a/b`, which holds `/a/b/y.txt`; the
      walk from `/a` meets them in that order. */
  lemma NestedWalk()
    ensures Visited(Build(DirA())) == [DirA(), XTxt(), DirB(), YTxt()]
  {
    BuiltVisitsWalk(DirA());
    assert WalkSeq([YTxt()]) == [YTxt()];
    assert Walk(DirB()) == [DirB(), YTxt()];
    assert WalkSeq([DirB()]) == [DirB(), YTxt()];
    assert [XTxt(), DirB()][1..] == [DirB()];
    assert WalkSeq([XTxt(), DirB()]) == [XTxt()] + WalkSeq([DirB()]);
  }

  /** Both `.txt` files are listed, in pre-order. */
  lemma NestedFilesOfType()
    ensures FilePaths(Visited(Build(DirA())), ".txt") == ["/a/x.txt", "/a/b/y.txt"]
  {
    NestedWalk();
    TxtInNestedWalk();
  }

  lemma TxtInNestedWalk()
    ensures FilePaths([DirA(), XTxt(), DirB(), YTxt()], ".txt") == ["/a/x.txt", "/a/b/y.txt"]
  {
    var w := [DirA(), XTxt(), DirB(), YTxt()];
    assert EndsWith("/a/x.txt", ".txt");
    assert EndsWith("/a/b/y.txt", ".txt");
    assert w[1..] == [XTxt(), DirB(), YTxt()];
    assert w[1..][1..] == [DirB(), YTxt()];
    assert w[1..][1..][1..] == [YTxt()];
    assert FilePaths([YTxt()], ".txt") == ["/a/b/y.txt"];
    assert FilePaths([DirB(), YTxt()], ".txt") == ["/a/b/y.txt"];
  }

  /** `y.txt` is found by name, past the file and the directory before it. */
  lemma NestedFindFile()
    ensures FoundPath(Visited(Build(DirA())), "y.txt") == "/a/b/y.txt"
  {
    NestedWalk();
    YInNestedWalk();
  }

  lemma YInNestedWalk()
    ensures FoundPath([DirA(), XTxt(), DirB(), YTxt()], "y.txt") == "/a/b/y.txt"
  {
    var w := [DirA(), XTxt(), DirB(), YTxt()];
    assert w[1..] == [XTxt(), DirB(), YTxt()];
    assert w[1..][1..] == [DirB(), YTxt()];
    assert w[1..][1..][1..] == [YTxt()];
    assert "x.txt" != "y.txt";
    assert FirstFound(w, "y.txt") == 3;
  }

  /** A name that no file has yields `""`. */
  lemma NestedMissingFile()
    ensures FoundPath(Visited(Build(DirA())), "missing.txt") == ""
  {
    NestedWalk();
    MissingInNestedWalk();
  }

  lemma MissingInNestedWalk()
    ensures FoundPath([DirA(), XTxt(), DirB(), YTxt()], "missing.txt") == ""
  {
    var w := [DirA(), XTxt(), DirB(), YTxt()];
    assert w[1..] == [XTxt(), DirB(), YTxt()];
    assert w[1..][1..] == [DirB(), YTxt()];
    assert w[1..][1..][1..] == [YTxt()];
    assert "x.txt" != "missing.txt" && "y.txt" != "missing.txt";
    assert FirstFound(w, "missing.txt") == 4;
  }

  /** A root that is a file is the whole tree; it is listed for a suffix it
      ends with and for no other. */
  lemma SingleFileRoot(t: string)
    ensures Build(XTxt()).children == []
    ensures FilePaths(Visited(Build(XTxt())), t) == (if EndsWith("/a/x.txt", t) then ["/a/x.txt"] else [])
  {
    assert Visited(Build(XTxt())) == [XTxt()];
  }
}
