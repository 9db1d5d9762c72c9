/** `generate(rootPath)`: the folder name, then the tree, fenced as a Markdown code block. */
module FolderStructure {
  import opened Text
  import opened Listing
  import opened TreeRender
  import opened IgnoreList

  predicate IsSeparator(c: char) {
    c == '/' || c == '\\'
  }

  /** `rootPath.replace(/[/\\]+$/, "")`: the path without its trailing run of slashes
      and backslashes. */
  function StripTrailingSeparators(p: string): (r: string)
    ensures |r| <= |p| && r == p[..|r|]
    ensures r == [] || !IsSeparator(r[|r| - 1])
    ensures forall k :: |r| <= k < |p| ==> IsSeparator(p[k])
  {
    if p != [] && IsSeparator(p[|p| - 1]) then StripTrailingSeparators(p[..|p| - 1]) else p
  }

  /** POSIX `path.basename` of a path without trailing slashes: the part after its last
      `/`, or all of it when it has none. */
  function LastSegment(p: string): (r: string)
    ensures |r| <= |p| && r == p[|p| - |r|..]
    ensures '/' !in r
    ensures |r| < |p| ==> p[|p| - |r| - 1] == '/'
  {
    if p == [] || p[|p| - 1] == '/' then []
    else
      var r := LastSegment(p[..|p| - 1]) + [p[|p| - 1]];
      assert forall k :: 0 <= k < |r| - 1 ==> r[k] == LastSegment(p[..|p| - 1])[k];
      r
  }

  /** The name shown on the first line of the drawing. */
  function FolderName(rootPath: string): string {
    LastSegment(StripTrailingSeparators(rootPath))
  }

  const Fence: string := "```"

  /** The Markdown text: a fence line, the folder name with `/`, one line per tree line,
      and a closing fence. */
  function Markdown(folderName: string, treeLines: seq<string>): (md: string)
    ensures |md| >= 2 * |Fence| + 2
    ensures md[..|Fence| + 1] == Fence + "\n"
    ensures md[|md| - |Fence| - 1..] == "\n" + Fence
  {
    Fence + "\n" + Join([folderName + "/"] + treeLines, '\n') + "\n" + Fence
  }

  /** The text between the opening fence line and the closing fence line. */
  function FenceBody(md: string): string
    requires |md| >= 2 * |Fence| + 2
  {
    md[|Fence| + 1..|md| - |Fence| - 1]
  }

  /** Reading the Markdown back line by line gives the folder line and the tree lines,
      provided none of them holds a line break. */
  lemma MarkdownLines(folderName: string, treeLines: seq<string>)
    requires '\n' !in folderName
    requires forall k :: 0 <= k < |treeLines| ==> '\n' !in treeLines[k]
    ensures Split(FenceBody(Markdown(folderName, treeLines)), '\n') == [folderName + "/"] + treeLines
  {
    var lines := [folderName + "/"] + treeLines;
    var md := Markdown(folderName, treeLines);
    var body := Join(lines, '\n');
    assert md == (Fence + "\n") + body + ("\n" + Fence);
    assert FenceBody(md) == body;
    forall k | 0 <= k < |lines| ensures '\n' !in lines[k] {
      if k == 0 {
        assert forall c :: c in folderName + "/" ==> c in folderName || c == '/';
      } else {
        assert lines[k] == treeLines[k - 1];
      }
    }
    SplitJoin(lines, '\n');
  }

  /** The folder name holds no `/`, does not end in a separator, and is made of
      characters of the path. */
  lemma FolderNameSpec(rootPath: string)
    ensures '/' !in FolderName(rootPath)
    ensures FolderName(rootPath) == [] || !IsSeparator(FolderName(rootPath)[|FolderName(rootPath)| - 1])
    ensures forall c :: c in FolderName(rootPath) ==> c in rootPath
  {
    var name := FolderName(rootPath);
    var stripped := StripTrailingSeparators(rootPath);
    forall c | c in name ensures c in rootPath {
      var k :| 0 <= k < |name| && name[k] == c;
      assert stripped[|stripped| - |name| + k] == c;
      assert rootPath[|stripped| - |name| + k] == c;
    }
    if name != [] {
      assert name[|name| - 1] == stripped[|stripped| - 1];
    }
  }

  /** `generate(rootPath)` on the snapshot `root` of the folder at `rootPath`, with the
      user's extra names to ignore. */
  function Generate(rootPath: string, root: Node, customNames: seq<string>): (md: string)
    ensures |md| >= 2 * |Fence| + 2
  {
    Markdown(FolderName(rootPath), DrawTree(root, IgnoredFiles(customNames)))
  }

  /** Read back line by line, the generated block holds the folder line and then one
      line per entry reached below the root. */
  lemma GenerateLines(rootPath: string, root: Node, ignored: seq<string>)
    requires '\n' !in rootPath
    requires forall k :: 0 <= k < |DrawTree(root, ignored)| ==> '\n' !in DrawTree(root, ignored)[k]
    ensures var lines := Split(FenceBody(Markdown(FolderName(rootPath), DrawTree(root, ignored))), '\n');
      && |lines| == 1 + |Contents(root, ignored)|
      && lines[0] == FolderName(rootPath) + "/"
  {
    FolderNameSpec(rootPath);
    MarkdownLines(FolderName(rootPath), DrawTree(root, ignored));
    RenderCount(root, "", ignored);
  }
}
