/** The recursive tree drawing: one line per reachable, non-ignored entry, each with a
    connector glyph, the entry's name and an optional annotation, and a directory's
    descendants drawn right after it under an extended prefix. */
module TreeRender {
  import opened Listing
  import LexOrder

  /** The glyph in front of a name: `├── ` unless the entry is the last of the
      filtered listing, `└── ` if it is. */
  datatype Connector = Branch | Last

  /** One drawn line, before it is flattened to text. */
  datatype TreeLine = TreeLine(prefix: string, connector: Connector, name: string, annotation: string)

  function Glyph(c: Connector): string {
    match c
    case Branch => "\U{251C}\U{2500}\U{2500} "
    case Last => "\U{2514}\U{2500}\U{2500} "
  }

  /** What a directory adds to the prefix of its descendants: a vertical bar while later
      siblings follow, blanks under the last one. */
  function Indent(c: Connector): (s: string)
    ensures |s| == 4
  {
    match c
    case Branch => "\U{2502}   "
    case Last => "    "
  }

  /** The fixed table of well-known file names and their comments. */
  const FileComments: map<string, string> := map[
    "app.py" := "main FastAPI app",
    "README.md" := "Project documentation",
    ".gitignore" := "gitignore file for GitHub",
    "__init__.py" := "initializes package",
    "log.py" := "main logic",
    "models.py" := "models"]

  /** The annotation after a name: `  # <comment>` for a name of the table, nothing
      for any other name. */
  function Comment(name: string): (a: string)
    ensures a != [] <==> name in FileComments
  {
    if name in FileComments then "  # " + FileComments[name] else ""
  }

  /** The text of a line. */
  function Format(l: TreeLine): string {
    l.prefix + Glyph(l.connector) + l.name + l.annotation
  }

  function ConnectorAt(i: nat, n: nat): Connector {
    if i == n - 1 then Last else Branch
  }

  /** The lines drawn for the listing of `d` under `prefix`. A node that is not a
      directory, or whose listing fails, contributes nothing: the failure is caught. */
  function RenderListing(d: Node, prefix: string, ignored: seq<string>): seq<TreeLine>
    decreases d, 1
  {
    if d.Dir? && d.listable then RenderFrom(d, 0, prefix, ignored) else []
  }

  /** The lines drawn for entries `i..` of the sorted, filtered listing of `d`. The
      connector compares each entry's index with the length of the filtered listing. */
  function RenderFrom(d: Node, i: nat, prefix: string, ignored: seq<string>): seq<TreeLine>
    requires d.Dir? && i <= |Listed(d.entries, ignored)|
    decreases d, 0, |Listed(d.entries, ignored)| - i
  {
    var entries := Listed(d.entries, ignored);
    if i == |entries| then []
    else
      assert entries[i] in d.entries;
      EntryLines(entries[i], ConnectorAt(i, |entries|), prefix, ignored)
      + RenderFrom(d, i + 1, prefix, ignored)
  }

  /** The lines drawn for one entry with connector `c`: none when its `stat` fails
      (the error is caught and the loop continues); otherwise its own line followed, for a
      directory, by the lines of its listing under the prefix extended by `Indent(c)`. */
  function EntryLines(e: Node, c: Connector, prefix: string, ignored: seq<string>): seq<TreeLine>
    decreases e, 2
  {
    if e.Inaccessible? then []
    else
      [TreeLine(prefix, c, e.name, Comment(e.name))]
      + (if e.Dir? then RenderListing(e, prefix + Indent(c), ignored) else [])
  }

  /** `drawTreeToMd(root, "", [], ignored)`: the text lines of the drawing. */
  function DrawTree(root: Node, ignored: seq<string>): (lines: seq<string>)
    ensures |lines| == |RenderListing(root, "", ignored)|
  {
    var tree := RenderListing(root, "", ignored);
    seq(|tree|, k requires 0 <= k < |tree| => Format(tree[k]))
  }

  // ---------------------------------------------------------------------------
  // What a drawing contains, independently of listing order.

  /** The names an entry contributes, walking the snapshot in its own order: none when
      the entry is ignored or cannot be stat-ed; otherwise its own name and, for a
      listable directory, the names below it. */
  function Reached(e: Node, ignored: seq<string>): seq<string>
    decreases e, 1
  {
    if e.Inaccessible? || e.name in ignored then []
    else [e.name] + Contents(e, ignored)
  }

  /** The names reached below `d`. */
  function Contents(d: Node, ignored: seq<string>): seq<string>
    decreases d, 0
  {
    if d.Dir? && d.listable then ReachedAll(d.entries, ignored) else []
  }

  function ReachedAll(s: seq<Node>, ignored: seq<string>): seq<string>
    decreases s
  {
    if s == [] then [] else Reached(s[0], ignored) + ReachedAll(s[1..], ignored)
  }

  /** Nothing ignored is reached, at any depth. */
  lemma {:induction false} ContentsOmitIgnored(d: Node, ignored: seq<string>)
    ensures forall k :: 0 <= k < |Contents(d, ignored)| ==> Contents(d, ignored)[k] !in ignored
    decreases d, 0
  {
    if d.Dir? && d.listable {
      ReachedAllOmitIgnored(d.entries, ignored);
    }
  }

  lemma {:induction false} ReachedAllOmitIgnored(s: seq<Node>, ignored: seq<string>)
    ensures forall k :: 0 <= k < |ReachedAll(s, ignored)| ==> ReachedAll(s, ignored)[k] !in ignored
    decreases s
  {
    if s != [] {
      var e := s[0];
      var here := Reached(e, ignored);
      var rest := ReachedAll(s[1..], ignored);
      if !e.Inaccessible? && e.name !in ignored {
        ContentsOmitIgnored(e, ignored);
        assert here == [e.name] + Contents(e, ignored);
      }
      assert forall k :: 0 <= k < |here| ==> here[k] !in ignored;
      ReachedAllOmitIgnored(s[1..], ignored);
      assert ReachedAll(s, ignored) == here + rest;
      forall k | 0 <= k < |here + rest| ensures (here + rest)[k] !in ignored {
        if k >= |here| {
          assert (here + rest)[k] == rest[k - |here|];
        }
      }
    }
  }

  /** The names of a sequence of lines, in order. */
  function Names(lines: seq<TreeLine>): (names: seq<string>)
    ensures |names| == |lines|
    ensures forall k :: 0 <= k < |lines| ==> names[k] == lines[k].name
  {
    seq(|lines|, k requires 0 <= k < |lines| => lines[k].name)
  }

  lemma {:induction false} ReachedAllConcat(a: seq<Node>, b: seq<Node>, ignored: seq<string>)
    ensures ReachedAll(a + b, ignored) == ReachedAll(a, ignored) + ReachedAll(b, ignored)
  {
    if a != [] {
      ReachedAllConcat(a[1..], b, ignored);
      assert (a + b)[1..] == a[1..] + b;
    } else {
      assert a + b == b;
    }
  }

  /** Removing one occurrence of the same element from two sequences with the same
      elements leaves sequences with the same elements. */
  lemma MultisetWithout<T>(s: seq<T>, t: seq<T>, k: nat)
    requires multiset(s) == multiset(t) && s != [] && k < |t| && t[k] == s[0]
    ensures multiset(s[1..]) == multiset(t[..k] + t[k + 1..])
  {
    assert t == t[..k] + [t[k]] + t[k + 1..];
    assert s == [s[0]] + s[1..];
    calc {
      multiset(t[..k] + t[k + 1..]);
      multiset(t[..k]) + multiset(t[k + 1..]);
      multiset(t[..k]) + multiset{t[k]} + multiset(t[k + 1..]) - multiset{t[k]};
      multiset(t) - multiset{s[0]};
      multiset(s) - multiset{s[0]};
      multiset{s[0]} + multiset(s[1..]) - multiset{s[0]};
      multiset(s[1..]);
    }
  }

  /** Reordering a listing does not change which names are reached through it. */
  lemma {:induction false} ReachedAllPermutation(s: seq<Node>, t: seq<Node>, ignored: seq<string>)
    requires multiset(s) == multiset(t)
    ensures multiset(ReachedAll(s, ignored)) == multiset(ReachedAll(t, ignored))
    decreases |s|
  {
    if s != [] {
      assert s[0] in multiset(t);
      var k :| 0 <= k < |t| && t[k] == s[0];
      var t' := t[..k] + t[k + 1..];
      MultisetWithout(s, t, k);
      ReachedAllPermutation(s[1..], t', ignored);
      ReachedAllSplit(t, k, ignored);
      ReachedAllConcat(t[..k], t[k + 1..], ignored);
    } else {
      assert t == [];
    }
  }

  /** The names reached through `t` are those before entry `k`, then entry `k`'s, then
      those after it. */
  lemma ReachedAllSplit(t: seq<Node>, k: nat, ignored: seq<string>)
    requires k < |t|
    ensures ReachedAll(t, ignored)
      == ReachedAll(t[..k], ignored) + Reached(t[k], ignored) + ReachedAll(t[k + 1..], ignored)
  {
    assert t == t[..k] + ([t[k]] + t[k + 1..]);
    ReachedAllConcat(t[..k], [t[k]] + t[k + 1..], ignored);
    assert ([t[k]] + t[k + 1..])[1..] == t[k + 1..];
  }

  /** Dropping ignored entries does not change what is reached: they reach nothing. */
  lemma {:induction false} ReachedAllUnignored(s: seq<Node>, ignored: seq<string>)
    ensures ReachedAll(Unignored(s, ignored), ignored) == ReachedAll(s, ignored)
  {
    if s != [] {
      ReachedAllUnignored(s[1..], ignored);
      var t := Unignored(s[1..], ignored);
      if s[0].name !in ignored {
        assert ([s[0]] + t)[1..] == t;
        assert ReachedAll([s[0]] + t, ignored) == Reached(s[0], ignored) + ReachedAll(t, ignored);
      }
    }
  }

  lemma ListedReached(entries: seq<Node>, ignored: seq<string>)
    ensures multiset(ReachedAll(Listed(entries, ignored), ignored)) == multiset(ReachedAll(entries, ignored))
  {
    var sorted := SortByName(entries);
    SortByNameSpec(entries);
    ReachedAllUnignored(sorted, ignored);
    ReachedAllPermutation(sorted, entries, ignored);
  }

  lemma NamesConcat(a: seq<TreeLine>, b: seq<TreeLine>)
    ensures multiset(Names(a + b)) == multiset(Names(a)) + multiset(Names(b))
  {
    assert Names(a + b) == Names(a) + Names(b);
  }

  /** The names drawn for a listing are exactly the names reached through it, counted
      with multiplicity, whatever order the listing was read in. */
  lemma {:induction false} ListingNames(d: Node, prefix: string, ignored: seq<string>)
    ensures multiset(Names(RenderListing(d, prefix, ignored))) == multiset(Contents(d, ignored))
    decreases d, 1
  {
    if d.Dir? && d.listable {
      FromNames(d, 0, prefix, ignored);
      var entries := Listed(d.entries, ignored);
      assert entries[0..] == entries;
      ListedReached(d.entries, ignored);
    }
  }

  lemma {:induction false} FromNames(d: Node, i: nat, prefix: string, ignored: seq<string>)
    requires d.Dir? && i <= |Listed(d.entries, ignored)|
    ensures multiset(Names(RenderFrom(d, i, prefix, ignored)))
      == multiset(ReachedAll(Listed(d.entries, ignored)[i..], ignored))
    decreases d, 0, |Listed(d.entries, ignored)| - i
  {
    var entries := Listed(d.entries, ignored);
    if i < |entries| {
      var e := entries[i];
      assert e in d.entries;
      var part := EntryLines(e, ConnectorAt(i, |entries|), prefix, ignored);
      var rest := RenderFrom(d, i + 1, prefix, ignored);
      FromNames(d, i + 1, prefix, ignored);
      EntryNames(e, ConnectorAt(i, |entries|), prefix, ignored);
      NamesConcat(part, rest);
      ReachedAllStep(entries, i, ignored);
    }
  }

  lemma ReachedAllStep(entries: seq<Node>, i: nat, ignored: seq<string>)
    requires i < |entries|
    ensures multiset(ReachedAll(entries[i..], ignored))
      == multiset(Reached(entries[i], ignored)) + multiset(ReachedAll(entries[i + 1..], ignored))
  {
    assert entries[i..][1..] == entries[i + 1..];
  }

  /** The lines of one entry name exactly what the entry reaches. */
  lemma {:induction false} EntryNames(e: Node, c: Connector, prefix: string, ignored: seq<string>)
    requires e.name !in ignored
    ensures multiset(Names(EntryLines(e, c, prefix, ignored))) == multiset(Reached(e, ignored))
    decreases e, 2
  {
    if !e.Inaccessible? {
      var line := TreeLine(prefix, c, e.name, Comment(e.name));
      var sub := if e.Dir? then RenderListing(e, prefix + Indent(c), ignored) else [];
      ListingNames(e, prefix + Indent(c), ignored);
      assert Names([line] + sub) == [e.name] + Names(sub);
    }
  }

  /** The number of lines is the number of entries reached at every depth, neither
      ignored nor failing `stat`; a directory whose listing fails adds only its own line. */
  lemma RenderCount(d: Node, prefix: string, ignored: seq<string>)
    ensures |RenderListing(d, prefix, ignored)| == |Contents(d, ignored)|
  {
    ListingNames(d, prefix, ignored);
    assert |multiset(Names(RenderListing(d, prefix, ignored)))| == |multiset(Contents(d, ignored))|;
  }

  /** No line at any depth carries an ignored name. */
  lemma RenderOmitsIgnored(d: Node, prefix: string, ignored: seq<string>)
    ensures forall k :: 0 <= k < |RenderListing(d, prefix, ignored)| ==>
      RenderListing(d, prefix, ignored)[k].name !in ignored
  {
    var lines := RenderListing(d, prefix, ignored);
    ListingNames(d, prefix, ignored);
    ContentsOmitIgnored(d, ignored);
    forall k | 0 <= k < |lines| ensures lines[k].name !in ignored {
      assert Names(lines)[k] in multiset(Names(lines));
      assert lines[k].name in Contents(d, ignored);
    }
  }

  // ---------------------------------------------------------------------------
  // The shape of every line, and the lines of one directory level.

  predicate IsPrefix(p: string, s: string) {
    |p| <= |s| && s[..|p|] == p
  }

  /** Every line under `prefix` starts with `prefix` and is annotated from the table. */
  predicate WellShaped(lines: seq<TreeLine>, prefix: string) {
    forall k :: 0 <= k < |lines| ==>
      IsPrefix(prefix, lines[k].prefix) && lines[k].annotation == Comment(lines[k].name)
  }

  /** At every depth a line's prefix extends the prefix its directory was drawn with,
      and its annotation is the table's comment for its name. */
  lemma {:induction false} ListingShape(d: Node, prefix: string, ignored: seq<string>)
    ensures WellShaped(RenderListing(d, prefix, ignored), prefix)
    decreases d, 1
  {
    if d.Dir? && d.listable {
      FromShape(d, 0, prefix, ignored);
    }
  }

  /** The lines below an entry's own line are drawn under the prefix extended by four
      spaces when the entry is the last one, and by a vertical bar and three spaces
      otherwise. */
  lemma EntryChildPrefix(e: Node, c: Connector, prefix: string, ignored: seq<string>)
    ensures var lines := EntryLines(e, c, prefix, ignored);
      forall k :: 1 <= k < |lines| ==>
        IsPrefix(prefix + (if c == Last then "    " else "\U{2502}   "), lines[k].prefix)
  {
    if !e.Inaccessible? && e.Dir? {
      ListingShape(e, prefix + Indent(c), ignored);
      var lines := EntryLines(e, c, prefix, ignored);
      var sub := RenderListing(e, prefix + Indent(c), ignored);
      assert forall k :: 1 <= k < |lines| ==> lines[k] == sub[k - 1];
    }
  }

  lemma {:induction false} FromShape(d: Node, i: nat, prefix: string, ignored: seq<string>)
    requires d.Dir? && i <= |Listed(d.entries, ignored)|
    ensures WellShaped(RenderFrom(d, i, prefix, ignored), prefix)
    decreases d, 0, |Listed(d.entries, ignored)| - i
  {
    var entries := Listed(d.entries, ignored);
    if i < |entries| {
      var e := entries[i];
      assert e in d.entries;
      FromShape(d, i + 1, prefix, ignored);
      if !e.Inaccessible? {
        var c := ConnectorAt(i, |entries|);
        var sub := if e.Dir? then RenderListing(e, prefix + Indent(c), ignored) else [];
        ListingShape(e, prefix + Indent(c), ignored);
        assert WellShaped(sub, prefix) by {
          forall k | 0 <= k < |sub| ensures IsPrefix(prefix, sub[k].prefix) {
            assert IsPrefix(prefix + Indent(c), sub[k].prefix);
            assert sub[k].prefix[..|prefix|] == (prefix + Indent(c))[..|prefix|];
          }
        }
      }
    }
  }

  /** The lines drawn directly at `prefix` (a directory's own entries, not deeper ones). */
  function TopLevel(lines: seq<TreeLine>, prefix: string): (top: seq<TreeLine>)
    ensures |top| <= |lines|
  {
    if lines == [] then []
    else (if lines[0].prefix == prefix then [lines[0]] else []) + TopLevel(lines[1..], prefix)
  }

  lemma {:induction false} TopLevelConcat(a: seq<TreeLine>, b: seq<TreeLine>, prefix: string)
    ensures TopLevel(a + b, prefix) == TopLevel(a, prefix) + TopLevel(b, prefix)
  {
    if a != [] {
      TopLevelConcat(a[1..], b, prefix);
      assert (a + b)[1..] == a[1..] + b;
    } else {
      assert a + b == b;
    }
  }

  lemma {:induction false} TopLevelOfDeeper(lines: seq<TreeLine>, prefix: string)
    requires forall k :: 0 <= k < |lines| ==> |lines[k].prefix| > |prefix|
    ensures TopLevel(lines, prefix) == []
  {
    if lines != [] {
      TopLevelOfDeeper(lines[1..], prefix);
    }
  }

  /** Reference description of one directory level: for each entry of `entries` from
      index `i` on whose `stat` succeeds, one line under `prefix` whose connector
      compares the entry's index with the length of `entries`. */
  function Siblings(entries: seq<Node>, i: nat, prefix: string): seq<TreeLine>
    requires i <= |entries|
    decreases |entries| - i
  {
    if i == |entries| then []
    else if entries[i].Inaccessible? then Siblings(entries, i + 1, prefix)
    else
      [TreeLine(prefix, ConnectorAt(i, |entries|), entries[i].name, Comment(entries[i].name))]
      + Siblings(entries, i + 1, prefix)
  }

  /** A directory's descendants never appear at its own level: what the drawing shows at
      `prefix` is exactly the reference description of that level. */
  lemma {:induction false} FromTopLevel(d: Node, i: nat, prefix: string, ignored: seq<string>)
    requires d.Dir? && i <= |Listed(d.entries, ignored)|
    ensures TopLevel(RenderFrom(d, i, prefix, ignored), prefix)
      == Siblings(Listed(d.entries, ignored), i, prefix)
    decreases |Listed(d.entries, ignored)| - i
  {
    var entries := Listed(d.entries, ignored);
    if i < |entries| {
      var e := entries[i];
      var c := ConnectorAt(i, |entries|);
      assert e in d.entries;
      FromTopLevel(d, i + 1, prefix, ignored);
      EntryTopLevel(e, c, prefix, ignored);
      TopLevelConcat(EntryLines(e, c, prefix, ignored), RenderFrom(d, i + 1, prefix, ignored), prefix);
    }
  }

  /** At its own level an entry shows as its single line, or not at all when its `stat`
      fails; its descendants sit deeper. */
  lemma EntryTopLevel(e: Node, c: Connector, prefix: string, ignored: seq<string>)
    ensures TopLevel(EntryLines(e, c, prefix, ignored), prefix)
      == if e.Inaccessible? then [] else [TreeLine(prefix, c, e.name, Comment(e.name))]
  {
    if !e.Inaccessible? {
      var line := TreeLine(prefix, c, e.name, Comment(e.name));
      var sub := if e.Dir? then RenderListing(e, prefix + Indent(c), ignored) else [];
      ListingShape(e, prefix + Indent(c), ignored);
      forall k | 0 <= k < |sub| ensures |sub[k].prefix| > |prefix| {
        assert IsPrefix(prefix + Indent(c), sub[k].prefix);
      }
      TopLevelOfDeeper(sub, prefix);
      TopLevelConcat([line], sub, prefix);
      assert TopLevel([line], prefix) == [line] by {
        assert [line][1..] == [];
      }
    }
  }

  /** Every name of the level from `i` on sorts no earlier than entry `k`'s, for `k <= i`. */
  lemma {:induction false} SiblingsBelow(entries: seq<Node>, k: nat, i: nat, prefix: string)
    requires SortedByName(entries)
    requires k <= i <= |entries| && k < |entries|
    ensures forall l :: l in Siblings(entries, i, prefix) ==> LexOrder.Le(entries[k].name, l.name)
    decreases |entries| - i
  {
    if i < |entries| {
      SiblingsBelow(entries, k, i + 1, prefix);
      if k == i {
        LexOrder.Reflexive(entries[k].name);
      }
    }
  }

  /** The lines' names are in sorted order. */
  predicate NamesSorted(lines: seq<TreeLine>) {
    forall a, b :: 0 <= a < b < |lines| ==> LexOrder.Le(lines[a].name, lines[b].name)
  }

  lemma {:induction false} SiblingsSorted(entries: seq<Node>, i: nat, prefix: string)
    requires SortedByName(entries) && i <= |entries|
    ensures NamesSorted(Siblings(entries, i, prefix))
    decreases |entries| - i
  {
    if i < |entries| {
      SiblingsSorted(entries, i + 1, prefix);
      if !entries[i].Inaccessible? {
        var s := Siblings(entries, i, prefix);
        var t := Siblings(entries, i + 1, prefix);
        assert s == [s[0]] + t;
        SiblingsBelow(entries, i, i + 1, prefix);
        assert s[0].name == entries[i].name;
        forall a, b | 0 <= a < b < |s| ensures LexOrder.Le(s[a].name, s[b].name) {
          assert s[b] == t[b - 1] && t[b - 1] in t;
          if a > 0 {
            assert s[a] == t[a - 1];
            assert LexOrder.Le(t[a - 1].name, t[b - 1].name);
          } else {
            assert LexOrder.Le(entries[i].name, t[b - 1].name);
          }
        }
      }
    }
  }

  /** Only the final line of a level can carry `└── `, and it does exactly when the
      final entry could be stat-ed. */
  lemma {:induction false} SiblingsConnectors(entries: seq<Node>, i: nat, prefix: string)
    requires i <= |entries|
    ensures var s := Siblings(entries, i, prefix);
      && (forall k :: 0 <= k < |s| - 1 ==> s[k].connector == Branch)
      && ((|s| > 0 && s[|s| - 1].connector == Last)
          <==> (i < |entries| && !entries[|entries| - 1].Inaccessible?))
    decreases |entries| - i
  {
    if i < |entries| {
      SiblingsConnectors(entries, i + 1, prefix);
      var s := Siblings(entries, i, prefix);
      var t := Siblings(entries, i + 1, prefix);
      if !entries[i].Inaccessible? {
        assert s == [s[0]] + t;
        if i == |entries| - 1 {
          assert t == [];
        }
      }
    }
  }

  /** One level of a listable directory: its lines appear in name order, every one but
      the final line uses `├── `, and the final line uses `└── ` exactly when the final
      entry of the sorted, filtered listing could be stat-ed (so a failing last entry
      leaves the level without any `└── `). */
  lemma LevelOrderAndConnectors(d: Node, prefix: string, ignored: seq<string>)
    requires d.Dir? && d.listable
    ensures var top := TopLevel(RenderListing(d, prefix, ignored), prefix);
      var entries := Listed(d.entries, ignored);
      && NamesSorted(top)
      && (forall k :: 0 <= k < |top| - 1 ==> top[k].connector == Branch)
      && ((|top| > 0 && top[|top| - 1].connector == Last)
          <==> (|entries| > 0 && !entries[|entries| - 1].Inaccessible?))
  {
    var entries := Listed(d.entries, ignored);
    ListedSorted(d.entries, ignored);
    FromTopLevel(d, 0, prefix, ignored);
    SiblingsSorted(entries, 0, prefix);
    SiblingsConnectors(entries, 0, prefix);
  }

  // ---------------------------------------------------------------------------
  // The annotation lookup as written.

  /** Names every plain JavaScript object inherits from `Object.prototype`, with the text
      their values print as inside a template literal. */
  const InheritedMembers: map<string, string> := map[
    "__proto__" := "[object Object]",
    "hasOwnProperty" := "function hasOwnProperty() { [native code] }",
    "isPrototypeOf" := "function isPrototypeOf() { [native code] }",
    "propertyIsEnumerable" := "function propertyIsEnumerable() { [native code] }",
    "toLocaleString" := "function toLocaleString() { [native code] }",
    "toString" := "function toString() { [native code] }",
    "valueOf" := "function valueOf() { [native code] }",
    "__defineGetter__" := "function __defineGetter__() { [native code] }",
    "__defineSetter__" := "function __defineSetter__() { [native code] }",
    "__lookupGetter__" := "function __lookupGetter__() { [native code] }",
    "__lookupSetter__" := "function __lookupSetter__() { [native code] }",
    "constructor" := "function Object() { [native code] }"]

  /** `this.fileComments[file] || ""` as written: a property lookup on a plain object,
      which also finds the members inherited from `Object.prototype`. */
  function CommentAsWritten(name: string): string {
    if name in FileComments then "  # " + FileComments[name]
    else if name in InheritedMembers then "  # " + InheritedMembers[name]
    else ""
  }

  /** The lookup as written annotates a file named `constructor`, which is not in the
      table; the corrected lookup used by the drawing does not. */
  lemma ConstructorIsAnnotatedAsWritten()
    ensures "constructor" !in FileComments && Comment("constructor") == ""
    ensures CommentAsWritten("constructor") == "  # " + InheritedMembers["constructor"]
    ensures InheritedMembers["constructor"] == "function Object() { [native code] }"
  {
  }

  /** The two lookups agree on every name that is not an inherited member. */
  lemma CommentAgreesOffPrototype(name: string)
    requires name !in InheritedMembers
    ensures CommentAsWritten(name) == Comment(name)
  {
  }
}
