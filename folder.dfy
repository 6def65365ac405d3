/**
 * The viewer's file list groups source files into a folder tree: a root,
 * one folder per origin below it, and nested folders for the path
 * segments. Chains of folders holding nothing but one subfolder are
 * inlined into a single "a/b" folder before display.
 */
module FileList {
  import opened Locations

  /** `FolderType`: ORIGIN, FOLDER (here `Directory`) and ROOT. */
  datatype FolderType = Origin | Directory | Root

  /** A folder as a value: what `Folder.Tree` reads off the objects. */
  datatype FolderTree = FolderTree(kind: FolderType, parentPath: string, name: string, fullPath: string,
                                   files: seq<SourceFile>, children: seq<FolderTree>)

  /** The full path fixed at construction: "name/" for an origin, parent path + name + "/" for a folder, "" for the root. */
  function FullPathOf(kind: FolderType, parentPath: string, name: string): (r: string)
    ensures kind == Root <==> r == []
    ensures kind != Root ==> r[|r| - 1] == '/'
    ensures kind == Directory ==> |parentPath| < |r| && r[..|parentPath|] == parentPath
  {
    match kind
    case Origin => name + "/"
    case Directory => parentPath + name + "/"
    case Root => ""
  }

  /** The file is in the folder or in one of its descendants. */
  ghost predicate Contains(t: FolderTree, file: SourceFile) {
    file in t.files || exists i :: 0 <= i < |t.children| && Contains(t.children[i], file)
  }

  /** Every plain folder has a file or a subfolder: what inlining a folder needs. */
  ghost predicate NoEmptyDirectory(t: FolderTree) {
    (t.kind == Directory ==> t.files != [] || t.children != [])
    && forall i :: 0 <= i < |t.children| ==> NoEmptyDirectory(t.children[i])
  }

  /** A plain folder with no files and at most one subfolder is inlined into it. */
  predicate Inlined(t: FolderTree) {
    t.kind == Directory && t.files == [] && |t.children| <= 1
  }

  /** `compact` on values. */
  function CompactTree(t: FolderTree): FolderTree
    requires NoEmptyDirectory(t)
    decreases t.children, 1
  {
    if !Inlined(t) then CompactChildTrees(t)
    else
      var c := t.children[0];
      var c' := c.(name := t.name + "/" + c.name, parentPath := t.parentPath);
      assert NoEmptyDirectory(c') by {
        assert NoEmptyDirectory(c) && c'.kind == c.kind && c'.files == c.files && c'.children == c.children;
      }
      CompactTree(c')
  }

  /** The folder with each subfolder compacted. */
  function CompactChildTrees(t: FolderTree): (r: FolderTree)
    requires NoEmptyDirectory(t)
    ensures r.(children := t.children) == t && |r.children| == |t.children|
    ensures forall i :: 0 <= i < |t.children| ==> r.children[i] == CompactTree(t.children[i])
    decreases t.children, 0
  {
    t.(children := seq(|t.children|, i requires 0 <= i < |t.children| => CompactTree(t.children[i])))
  }

  /** No folder of the tree is left to inline. */
  ghost predicate Compacted(t: FolderTree) {
    !Inlined(t) && forall i :: 0 <= i < |t.children| ==> Compacted(t.children[i])
  }

  /** `compact` keeps every file reachable: `hasFile` answers the same before and after. */
  lemma {:induction false} CompactKeepsFiles(t: FolderTree, file: SourceFile)
    requires NoEmptyDirectory(t)
    ensures Contains(CompactTree(t), file) <==> Contains(t, file)
    decreases t.children
  {
    if !Inlined(t) {
      var r := CompactTree(t);
      forall i | 0 <= i < |t.children|
        ensures Contains(r.children[i], file) <==> Contains(t.children[i], file)
      {
        CompactKeepsFiles(t.children[i], file);
      }
      if Contains(t, file) && file !in t.files {
        var i :| 0 <= i < |t.children| && Contains(t.children[i], file);
        assert Contains(r.children[i], file);
      }
      if Contains(r, file) && file !in r.files {
        var i :| 0 <= i < |r.children| && Contains(r.children[i], file);
        assert Contains(t.children[i], file);
      }
    } else {
      var c := t.children[0];
      var c' := c.(name := t.name + "/" + c.name, parentPath := t.parentPath);
      CompactKeepsFiles(c', file);
      assert Contains(c', file) <==> Contains(c, file) by {
        assert c'.files == c.files && c'.children == c.children;
      }
    }
  }

  /** After `compact` no folder is left to inline, and the top folder keeps its kind. */
  lemma {:induction false} CompactCompacts(t: FolderTree)
    requires NoEmptyDirectory(t)
    ensures Compacted(CompactTree(t))
    ensures CompactTree(t).kind == t.kind || t.kind == Directory
    decreases t.children
  {
    if !Inlined(t) {
      forall i | 0 <= i < |t.children|
        ensures Compacted(CompactTree(t.children[i]))
      {
        CompactCompacts(t.children[i]);
      }
    } else {
      var c := t.children[0];
      CompactCompacts(c.(name := t.name + "/" + c.name, parentPath := t.parentPath));
    }
  }

  /** The index of the first child named `name`, if any. */
  function FirstNamed(children: seq<FolderTree>, name: string): (r: int)
    ensures -1 <= r < |children|
    ensures r >= 0 ==> children[r].name == name && forall j :: 0 <= j < r ==> children[j].name != name
    ensures r == -1 ==> forall j :: 0 <= j < |children| ==> children[j].name != name
  {
    if children == [] then -1
    else
      var r := FirstNamed(children[..|children| - 1], name);
      if r >= 0 then r
      else if children[|children| - 1].name == name then |children| - 1
      else -1
  }

  /** `getChildFolder` on values: the tree with the child present, and the child's index. */
  function WithChild(t: FolderTree, kind: FolderType, name: string): (FolderTree, nat) {
    var k := FirstNamed(t.children, name);
    if k >= 0 then (t, k)
    else (t.(children := t.children + [FolderTree(kind, t.fullPath, name, FullPathOf(kind, t.fullPath, name), [], [])]),
          |t.children|)
  }

  /** Getting a child twice yields the same folder and changes nothing the second time. */
  lemma WithChildIdempotent(t: FolderTree, kind: FolderType, kind': FolderType, name: string)
    ensures var (t1, k1) := WithChild(t, kind, name);
      k1 < |t1.children| && t1.children[k1].name == name
      && WithChild(t1, kind', name) == (t1, k1)
  {
    var (t1, k1) := WithChild(t, kind, name);
    if FirstNamed(t.children, name) < 0 {
      var kids := t1.children;
      assert kids[..|kids| - 1] == t.children;
    }
  }

  // ---------------------------------------------------------------------
  // Folder
  // ---------------------------------------------------------------------

  class Folder {
    const kind: FolderType
    var parentPath: string
    var name: string
    /** `_fullPath`: computed once by the constructor and not updated when `name` or `parentPath` change. */
    const fullPath: string
    var folders: seq<Folder>
    var files: seq<SourceFile>
    /** The folder and its descendants as a value. */
    ghost var Tree: FolderTree
    ghost var Repr: set<object>

    ghost predicate Valid()
      reads this, Repr
      decreases Repr
    {
      this in Repr
      && Tree.kind == kind && Tree.parentPath == parentPath && Tree.name == name
      && Tree.fullPath == fullPath && Tree.files == files && |Tree.children| == |folders|
      && (forall i :: 0 <= i < |folders| ==>
            folders[i] in Repr && folders[i].Repr <= Repr && this !in folders[i].Repr
            && folders[i].Valid() && Tree.children[i] == folders[i].Tree)
      && (forall i, j :: 0 <= i < j < |folders| ==> folders[i].Repr !! folders[j].Repr)
    }

    /** A new empty folder whose full path is fixed by its kind, parent path and name. */
    constructor(kind: FolderType, parentPath: string, name: string)
      ensures Valid() && fresh(Repr)
      ensures Tree == FolderTree(kind, parentPath, name, FullPathOf(kind, parentPath, name), [], [])
    {
      this.kind := kind;
      this.parentPath := parentPath;
      this.name := name;
      fullPath := FullPathOf(kind, parentPath, name);
      folders := [];
      files := [];
      Tree := FolderTree(kind, parentPath, name, FullPathOf(kind, parentPath, name), [], []);
      Repr := {this};
    }

    /**
     * `getChildFolder`: the first child named `name`, or a new child of
     * that name and kind, appended, whose parent path is this folder's
     * full path.
     */
    method GetChildFolder(kind: FolderType, name: string) returns (f: Folder)
      requires Valid() && kind != Root
      modifies this
      ensures Valid() && fresh(Repr - old(Repr))
      ensures var (t, k) := WithChild(old(Tree), kind, name); Tree == t && k < |folders| && f == folders[k]
    {
      var i := 0;
      while i < |folders| && folders[i].name != name
        invariant 0 <= i <= |folders|
        invariant forall j :: 0 <= j < i ==> Tree.children[j].name != name
      {
        i := i + 1;
      }
      if i == |folders| {
        assert FirstNamed(Tree.children, name) == -1;
        f := AppendChild(kind, name);
      } else {
        assert FirstNamed(Tree.children, name) == i;
        f := folders[i];
      }
    }

    /** The new-child branch of `getChildFolder`: a new empty folder, appended. */
    method AppendChild(kind: FolderType, name: string) returns (f: Folder)
      requires Valid()
      modifies this
      ensures Valid() && fresh(Repr - old(Repr)) && folders == old(folders) + [f]
      ensures Tree == old(Tree).(children := old(Tree).children
                                  + [FolderTree(kind, fullPath, name, FullPathOf(kind, fullPath, name), [], [])])
    {
      f := new Folder(kind, fullPath, name);
      folders := folders + [f];
      Tree := Tree.(children := Tree.children + [f.Tree]);
      Repr := Repr + f.Repr;
      assert folders[|folders| - 1] == f;
    }

    /** What the file list does with a file: push it onto the folder's `files`. */
    method AddFile(file: SourceFile)
      requires Valid()
      modifies this
      ensures Valid() && Repr == old(Repr)
      ensures Tree == old(Tree).(files := old(Tree).files + [file])
    {
      files := files + [file];
      Tree := Tree.(files := files);
    }

    /** `hasFile`: the file is in this folder or, searching the subfolders in order, in one of them. */
    method HasFile(file: SourceFile) returns (r: bool)
      requires Valid()
      ensures r == Contains(Tree, file)
      decreases Repr
    {
      if file in files {
        return true;
      }
      var i := 0;
      while i < |folders|
        invariant 0 <= i <= |folders|
        invariant forall j :: 0 <= j < i ==> !Contains(Tree.children[j], file)
      {
        var found := folders[i].HasFile(file);
        if found {
          assert Contains(Tree.children[i], file);
          return true;
        }
        i := i + 1;
      }
      return false;
    }

    /**
     * `compact`: an origin, the root, a folder with files or one with
     * several subfolders stays and has its subfolders compacted; any other
     * folder hands its name and parent path to its single subfolder, which
     * is compacted in its place.
     */
    method Compact() returns (r: Folder)
      requires Valid() && NoEmptyDirectory(Tree)
      modifies Repr
      ensures r.Valid() && r.Repr <= old(Repr)
      ensures r.Tree == CompactTree(old(Tree))
      decreases Repr, 2
    {
      if kind != Directory || |files| > 0 || |folders| > 1 {
        CompactChildren();
        r := this;
      } else {
        var c := folders[0];
        c.name := name + "/" + c.name;
        c.parentPath := parentPath;
        c.Tree := c.Tree.(name := c.name, parentPath := c.parentPath);
        r := c.Compact();
      }
    }

    /** `this.folders = this.folders.map((f) => f.compact())`. */
    method CompactChildren()
      requires Valid() && NoEmptyDirectory(Tree)
      modifies Repr
      ensures Valid() && Repr == old(Repr)
      ensures Tree == CompactChildTrees(old(Tree))
      decreases Repr, 1
    {
      ghost var reprs := seq(|folders|, j requires 0 <= j < |folders| reads this, folders => folders[j].Repr);
      var compacted, trees := CompactEach(reprs);
      folders := compacted;
      Tree := Tree.(children := trees);
    }

    /** The `map` of `compactChildren`: each subfolder compacted in turn, this folder's own fields untouched. */
    method CompactEach(ghost reprs: seq<set<object>>) returns (compacted: seq<Folder>, ghost trees: seq<FolderTree>)
      requires Valid() && NoEmptyDirectory(Tree)
      requires |reprs| == |folders| && forall j :: 0 <= j < |folders| ==> reprs[j] == folders[j].Repr
      requires forall j, k :: 0 <= j < k < |reprs| ==> reprs[j] !! reprs[k]
      requires forall j :: 0 <= j < |reprs| ==> reprs[j] <= Repr && this !in reprs[j]
      modifies Repr - {this}
      ensures |compacted| == |trees| == |folders|
      ensures forall j :: 0 <= j < |folders| ==>
        compacted[j].Valid() && compacted[j].Repr <= reprs[j] && this !in compacted[j].Repr
        && compacted[j] in Repr && compacted[j].Tree == trees[j] == CompactTree(Tree.children[j])
      decreases Repr, 0
    {
      compacted := [];
      trees := [];
      var i := 0;
      while i < |folders|
        invariant 0 <= i <= |folders| && |compacted| == i && |trees| == i
        invariant forall j, k :: 0 <= j < k < |reprs| ==> reprs[j] !! reprs[k]
        invariant forall j :: i <= j < |folders| ==>
          folders[j].Repr == reprs[j] && folders[j].Valid() && folders[j].Tree == Tree.children[j]
        invariant forall j :: 0 <= j < i ==>
          compacted[j].Valid() && compacted[j].Repr <= reprs[j]
          && compacted[j].Tree == trees[j] == CompactTree(Tree.children[j])
      {
        assert forall j :: 0 <= j < i ==> compacted[j].Repr !! reprs[i];
        var c := folders[i].Compact();
        compacted := compacted + [c];
        trees := trees + [c.Tree];
        i := i + 1;
      }
    }
  }
}
