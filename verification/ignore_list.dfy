/** The names left out of the drawing: the user's names, trimmed and with empty ones
    dropped, followed by a fixed default list, with repeats removed as a `Set` does. */
module IgnoreList {
  import opened Outcomes
  import opened Text

  /** The default names, in the order the generator lists them. */
  const DefaultIgnores: seq<string> := [
    ".git", "__pycache__", ".DS_Store", ".vscode", "node_modules",
    ".pytest_cache", "logs", "venv", "env", "FOLDER_STRUCTURE.md",
    "dist", "build", ".env", ".next", "target", "out", ".idea",
    ".vs", "bin", "obj", ".nyc_output", "coverage", ".cache", "tmp", "temp"]

  /** `names.map(s => s.trim())`. */
  function TrimEach(names: seq<string>): (r: seq<string>)
    ensures |r| == |names|
    ensures forall k :: 0 <= k < |names| ==> r[k] == Trim(names[k])
  {
    seq(|names|, k requires 0 <= k < |names| => Trim(names[k]))
  }

  /** Every trimmed name has no white space at its ends, is a slice of the name it came
      from, and is empty exactly when that name is all white space. */
  lemma TrimEachSpec(names: seq<string>)
    ensures forall k :: 0 <= k < |names| ==>
      && Trimmed(TrimEach(names)[k])
      && (TrimEach(names)[k] == [] <==> AllSpace(names[k]))
      && LeadingSpaces(names[k]) + |TrimEach(names)[k]| <= |names[k]|
      && TrimEach(names)[k] == names[k][LeadingSpaces(names[k])..LeadingSpaces(names[k]) + |TrimEach(names)[k]|]
  {
    forall k | 0 <= k < |names|
      ensures Trimmed(TrimEach(names)[k]) && (TrimEach(names)[k] == [] <==> AllSpace(names[k]))
      ensures LeadingSpaces(names[k]) + |TrimEach(names)[k]| <= |names[k]|
      ensures TrimEach(names)[k] == names[k][LeadingSpaces(names[k])..LeadingSpaces(names[k]) + |TrimEach(names)[k]|]
    {
      TrimEnds(names[k]);
      TrimEmpty(names[k]);
      TrimSlice(names[k]);
    }
  }

  /** `names.filter(Boolean)`: the non-empty names, in order. */
  function NonEmpty(names: seq<string>): seq<string>
  {
    if names == [] then []
    else if names[0] == "" then NonEmpty(names[1..])
    else [names[0]] + NonEmpty(names[1..])
  }

  /** The user's names as the generator keeps them: trimmed, empty ones dropped. */
  function CustomIgnores(names: seq<string>): seq<string>
  {
    NonEmpty(TrimEach(names))
  }

  /** A custom name is kept exactly when it is the trimmed form of some given name and
      that form is not empty; every kept name is non-empty and already trimmed. */
  lemma CustomIgnoresSpec(names: seq<string>)
    ensures forall x :: x in CustomIgnores(names) <==> x in TrimEach(names) && x != ""
    ensures forall k :: 0 <= k < |CustomIgnores(names)| ==>
      CustomIgnores(names)[k] != "" && Trim(CustomIgnores(names)[k]) == CustomIgnores(names)[k]
  {
    var r := CustomIgnores(names);
    NonEmptySpec(TrimEach(names));
    forall i | 0 <= i < |r| ensures r[i] != "" && Trim(r[i]) == r[i] {
      assert r[i] in r;
      var k :| 0 <= k < |names| && TrimEach(names)[k] == r[i];
      TrimIdempotent(names[k]);
    }
  }

  lemma {:induction false} NonEmptySpec(names: seq<string>)
    ensures forall x :: x in NonEmpty(names) <==> x in names && x != ""
  {
    if names != [] {
      NonEmptySpec(names[1..]);
      assert names == [names[0]] + names[1..];
    }
  }

  /** Filtering a sequence without empty names changes nothing. */
  lemma {:induction false} NonEmptyKeeps(names: seq<string>)
    requires forall k :: 0 <= k < |names| ==> names[k] != ""
    ensures NonEmpty(names) == names
  {
    if names != [] {
      NonEmptyKeeps(names[1..]);
    }
  }

  /** The position of the first occurrence of `x`. */
  function IndexOf(xs: seq<string>, x: string): (i: nat)
    requires x in xs
    ensures i < |xs| && xs[i] == x
    ensures forall k :: 0 <= k < i ==> xs[k] != x
  {
    if xs[0] == x then 0 else 1 + IndexOf(xs[1..], x)
  }

  predicate NoDuplicates(xs: seq<string>) {
    forall i, j :: 0 <= i < j < |xs| ==> xs[i] != xs[j]
  }

  /** `[...new Set(xs)]`: each distinct name once, where it first occurs. */
  function Dedup(xs: seq<string>): seq<string>
  {
    if xs == [] then []
    else
      var d := Dedup(xs[..|xs| - 1]);
      if xs[|xs| - 1] in d then d else d + [xs[|xs| - 1]]
  }

  /** First occurrences in `xs` are first occurrences in any extension of it. */
  lemma IndexOfPrefix(xs: seq<string>, n: nat, x: string)
    requires n <= |xs| && x in xs[..n]
    ensures IndexOf(xs, x) == IndexOf(xs[..n], x)
  {
    var i := IndexOf(xs[..n], x);
    var j := IndexOf(xs, x);
    assert xs[..n][i] == xs[i];
    assert j < n ==> xs[..n][j] == xs[j];
  }

  /** The de-duplicated sequence holds every name of `xs` exactly once, and nothing else,
      in the order of first occurrence. */
  lemma {:induction false} DedupSpec(xs: seq<string>)
    ensures forall x :: x in Dedup(xs) <==> x in xs
    ensures NoDuplicates(Dedup(xs))
    ensures forall i, j :: 0 <= i < j < |Dedup(xs)| ==>
      IndexOf(xs, Dedup(xs)[i]) < IndexOf(xs, Dedup(xs)[j])
  {
    if xs != [] {
      var n := |xs| - 1;
      var init := xs[..n];
      var last := xs[n];
      DedupSpec(init);
      var d := Dedup(init);
      assert xs == init + [last];
      forall x | x in init ensures IndexOf(xs, x) == IndexOf(init, x) {
        IndexOfPrefix(xs, n, x);
      }
      if last !in d {
        var r := d + [last];
        assert IndexOf(xs, last) == n;
        forall i, j | 0 <= i < j < |r| ensures IndexOf(xs, r[i]) < IndexOf(xs, r[j]) {
          assert r[i] == d[i] && d[i] in init;
          if j < |d| {
            assert r[j] == d[j];
          }
        }
      }
    }
  }

  /** Adding names at the end keeps the de-duplicated names of the beginning in front. */
  lemma {:induction false} DedupPrefix(a: seq<string>, b: seq<string>)
    ensures |Dedup(a)| <= |Dedup(a + b)|
    ensures Dedup(a + b)[..|Dedup(a)|] == Dedup(a)
  {
    if b == [] {
      assert a + b == a;
    } else {
      var b' := b[..|b| - 1];
      DedupPrefix(a, b');
      assert (a + b)[..|a + b| - 1] == a + b';
    }
  }

  /** `getIgnoredFiles()`: the custom names, then the defaults, without repeats. */
  function IgnoredFiles(customNames: seq<string>): seq<string>
  {
    Dedup(CustomIgnores(customNames) + DefaultIgnores)
  }

  /** The ignore list holds every trimmed non-empty custom name and every default name,
      each exactly once, and nothing else; the custom names come first. */
  lemma IgnoredFilesSpec(customNames: seq<string>)
    ensures forall x :: x in IgnoredFiles(customNames) <==>
      (x in TrimEach(customNames) && x != "") || x in DefaultIgnores
    ensures NoDuplicates(IgnoredFiles(customNames))
    ensures var c := Dedup(CustomIgnores(customNames));
      |c| <= |IgnoredFiles(customNames)| && IgnoredFiles(customNames)[..|c|] == c
  {
    CustomIgnoresSpec(customNames);
    DedupSpec(CustomIgnores(customNames) + DefaultIgnores);
    DedupPrefix(CustomIgnores(customNames), DefaultIgnores);
  }

  /** The third input step: `s ? s.split(',').map(x => x.trim()).filter(Boolean) : []`. */
  function ParseExtraIgnores(input: Option<string>): seq<string>
  {
    if Truthy(input) then CustomIgnores(Split(input.value, ',')) else []
  }

  /** The parsed names are the comma-separated fields of the input, trimmed, without the
      empty ones. */
  lemma ParsedNamesMembers(input: string)
    ensures forall x :: x in ParseExtraIgnores(Some(input)) <==> x != "" && x in TrimEach(Split(input, ','))
  {
    CustomIgnoresSpec(Split(input, ','));
  }

  /** No parsed name is empty, has spaces at its ends, or holds a comma. */
  lemma ParsedNamesShape(input: string)
    ensures forall k :: 0 <= k < |ParseExtraIgnores(Some(input))| ==>
      var x := ParseExtraIgnores(Some(input))[k];
      x != "" && Trim(x) == x && ',' !in x
  {
    var fields := Split(input, ',');
    var names := ParseExtraIgnores(Some(input));
    CustomIgnoresSpec(fields);
    forall k | 0 <= k < |names| ensures names[k] != "" && Trim(names[k]) == names[k] && ',' !in names[k] {
      assert names[k] in TrimEach(fields);
      var j :| 0 <= j < |fields| && TrimEach(fields)[j] == names[k];
      TrimInfix(fields[j]);
    }
  }

  /** What `trim` keeps is a part of its input, so it adds no character. */
  lemma TrimInfix(s: string)
    ensures forall c :: c in Trim(s) ==> c in s
  {
    var i := LeadingSpaces(s);
    var r := Trim(s);
    TrimSlice(s);
    forall c | c in r ensures c in s {
      var k :| 0 <= k < |r| && r[k] == c;
      assert s[i + k] == c;
    }
  }

  /** The generator trims and filters the names it receives again; on parsed names this
      changes nothing. */
  lemma ParsedNamesStable(input: Option<string>)
    ensures CustomIgnores(ParseExtraIgnores(input)) == ParseExtraIgnores(input)
  {
    var names := ParseExtraIgnores(input);
    if Truthy(input) {
      CustomIgnoresSpec(Split(input.value, ','));
    }
    assert TrimEach(names) == names;
    NonEmptyKeeps(names);
  }
}
