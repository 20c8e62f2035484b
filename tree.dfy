/**
 * The tree walker `recListFiles` (src/utils.ts). The file system is an
 * abstract tree: a directory listing is a sequence of entries in the order
 * `readdirSync` returns them, and a directory entry carries its own listing.
 *
 * `skip` is the predicate the source passes to `Array.filter`: the entries
 * for which it holds are KEPT and all others are pruned, directories with
 * their whole subtree.
 */
module Tree {
  import opened Strings

  /** A `Dirent`: a plain file or a directory, with its name and symlink flag. */
  datatype Entry =
    | File(name: string, symlink: bool)
    | Dir(name: string, symlink: bool, children: seq<Entry>)

  /** `contents.filter(skip)`: the kept entries, in listing order. */
  function Kept(contents: seq<Entry>, skip: Entry -> bool): (r: seq<Entry>)
    ensures |r| <= |contents|
    ensures forall e :: e in r <==> e in contents && skip(e)
  {
    if contents == [] then []
    else (if skip(contents[0]) then [contents[0]] else []) + Kept(contents[1..], skip)
  }
  /** Entry `i` of the filtered listing passed the filter and comes from the listing. */
  lemma KeptAt(contents: seq<Entry>, skip: Entry -> bool, i: nat)
    requires i < |Kept(contents, skip)|
    ensures Kept(contents, skip)[i] in contents && skip(Kept(contents, skip)[i])
  {
    assert Kept(contents, skip)[i] in Kept(contents, skip);
  }


  /**
   * The paths `recListFiles(dir, skip)` returns for a directory whose listing
   * is `contents`: depth first, in listing order.
   */
  function ListFiles(dir: string, contents: seq<Entry>, skip: Entry -> bool): seq<string>
    decreases contents
  {
    if contents == [] then []
    else ListEntry(dir, contents[0], skip) + ListFiles(dir, contents[1..], skip)
  }

  /** What one entry of the listing of `dir` contributes to `ListFiles`. */
  function ListEntry(dir: string, e: Entry, skip: Entry -> bool): seq<string>
    decreases e
  {
    if !skip(e) then []
    else match e
      case File(name, _) => [Join(dir, name)]
      case Dir(name, _, children) => ListFiles(Join(dir, name), children, skip)
  }

  // ---------------------------------------------------------------------
  // Structure of the listing

  /** Listing a concatenation of two listings concatenates their results. */
  lemma {:induction false} ListFilesAppend(dir: string, a: seq<Entry>, b: seq<Entry>, skip: Entry -> bool)
    ensures ListFiles(dir, a + b, skip) == ListFiles(dir, a, skip) + ListFiles(dir, b, skip)
  {
    if a != [] {
      assert (a + b)[0] == a[0];
      assert (a + b)[1..] == a[1..] + b;
      ListFilesAppend(dir, a[1..], b, skip);
    } else {
      assert a + b == b;
    }
  }

  /** Filtering first, as the source does, changes nothing in the result. */
  lemma {:induction false} ListFilesKept(dir: string, contents: seq<Entry>, skip: Entry -> bool)
    ensures ListFiles(dir, Kept(contents, skip), skip) == ListFiles(dir, contents, skip)
  {
    if contents != [] {
      var head := if skip(contents[0]) then [contents[0]] else [];
      ListFilesAppend(dir, head, Kept(contents[1..], skip), skip);
      ListFilesKept(dir, contents[1..], skip);
      if skip(contents[0]) {
        assert ListFiles(dir, head, skip) == ListEntry(dir, contents[0], skip) + ListFiles(dir, [], skip);
      }
    }
  }

  /** A rejected entry contributes nothing: removing it leaves the result unchanged. */
  lemma PrunedEntry(dir: string, contents: seq<Entry>, i: nat, skip: Entry -> bool)
    requires i < |contents| && !skip(contents[i])
    ensures ListFiles(dir, contents, skip) == ListFiles(dir, contents[..i] + contents[i + 1..], skip)
  {
    assert contents == contents[..i] + [contents[i]] + contents[i + 1..];
    ListFilesAppend(dir, contents[..i] + [contents[i]], contents[i + 1..], skip);
    ListFilesAppend(dir, contents[..i], [contents[i]], skip);
    ListFilesAppend(dir, contents[..i], contents[i + 1..], skip);
  }

  /**
   * The files of an accepted subdirectory are spliced in at that directory's
   * position among its siblings; an accepted file takes its own position.
   */
  lemma Splice(dir: string, before: seq<Entry>, e: Entry, after: seq<Entry>, skip: Entry -> bool)
    requires skip(e)
    ensures ListFiles(dir, before + [e] + after, skip) ==
      ListFiles(dir, before, skip)
      + (if e.Dir? then ListFiles(Join(dir, e.name), e.children, skip) else [Join(dir, e.name)])
      + ListFiles(dir, after, skip)
  {
    var mid := ListEntry(dir, e, skip);
    ListFilesAppend(dir, before + [e], after, skip);
    ListFilesAppend(dir, before, [e], skip);
    assert ListFiles(dir, [e], skip) == mid + ListFiles(dir, [], skip);
    assert mid + [] == mid;
    assert mid == (if e.Dir? then ListFiles(Join(dir, e.name), e.children, skip) else [Join(dir, e.name)]);
  }

  // ---------------------------------------------------------------------
  // Every listed path lies under `dir`

  /** Every returned path has `dir + "/"` as a prefix. */
  lemma {:induction false} ListedUnderDir(dir: string, contents: seq<Entry>, skip: Entry -> bool)
    ensures forall p :: p in ListFiles(dir, contents, skip) ==> StartsWith(p, dir + "/")
    decreases contents
  {
    if contents != [] {
      EntryUnderDir(dir, contents[0], skip);
      ListedUnderDir(dir, contents[1..], skip);
    }
  }

  /**
   * Every path an entry contributes starts with the entry's own joined path,
   * followed by nothing (a file) or by a slash (a file below a directory).
   */
  lemma {:induction false} EntryUnderDir(dir: string, e: Entry, skip: Entry -> bool)
    ensures forall p :: p in ListEntry(dir, e, skip) ==>
      StartsWith(p, Join(dir, e.name)) &&
      (|p| == |Join(dir, e.name)| || p[|Join(dir, e.name)|] == '/')
    ensures forall p :: p in ListEntry(dir, e, skip) ==> StartsWith(p, dir + "/")
    decreases e
  {
    if skip(e) && e.Dir? {
      var full := Join(dir, e.name);
      ListedUnderDir(full, e.children, skip);
      forall p | p in ListEntry(dir, e, skip)
        ensures StartsWith(p, full) && p[|full|] == '/' && StartsWith(p, dir + "/")
      {
        assert StartsWith(p, full + "/");
        assert p[..|full|] == (full + "/")[..|full|];
        assert p[..|dir| + 1] == p[..|full|][..|dir| + 1];
      }
    }
  }

  // ---------------------------------------------------------------------
  // Reference definition: a listed path is a chain of accepted entries

  /**
   * `chain` is a walk down the tree from the listing `contents` to a file:
   * each element is an entry of the previous directory, the last one a file.
   */
  ghost predicate IsChain(contents: seq<Entry>, chain: seq<Entry>) {
    && |chain| > 0
    && chain[0] in contents
    && chain[|chain| - 1].File?
    && forall j :: 0 <= j < |chain| - 1 ==> chain[j].Dir? && chain[j + 1] in chain[j].children
  }

  /** Every entry of the chain, the file and all its ancestor directories, passes `skip`. */
  ghost predicate Accepted(chain: seq<Entry>, skip: Entry -> bool) {
    forall j :: 0 <= j < |chain| ==> skip(chain[j])
  }

  /** `dir` joined with the names along the chain. */
  function PathOf(dir: string, chain: seq<Entry>): string
    decreases |chain|
  {
    if chain == [] then dir else PathOf(Join(dir, chain[0].name), chain[1..])
  }

  /** `p` is the path of an accepted chain starting in `contents`. */
  ghost predicate Reachable(dir: string, contents: seq<Entry>, skip: Entry -> bool, p: string) {
    exists chain :: IsChain(contents, chain) && Accepted(chain, skip) && p == PathOf(dir, chain)
  }

  /** Whatever one entry contributes is part of the listing containing it. */
  lemma {:induction false} EntryContributes(dir: string, contents: seq<Entry>, e: Entry, skip: Entry -> bool)
    requires e in contents
    ensures forall p :: p in ListEntry(dir, e, skip) ==> p in ListFiles(dir, contents, skip)
  {
    if contents[0] != e {
      EntryContributes(dir, contents[1..], e, skip);
    }
  }

  /** A path in the listing was contributed by one of the entries. */
  lemma {:induction false} ContributedBy(dir: string, contents: seq<Entry>, skip: Entry -> bool, p: string)
    requires p in ListFiles(dir, contents, skip)
    ensures exists i :: 0 <= i < |contents| && p in ListEntry(dir, contents[i], skip)
  {
    if p !in ListEntry(dir, contents[0], skip) {
      ContributedBy(dir, contents[1..], skip, p);
      var i :| 0 <= i < |contents[1..]| && p in ListEntry(dir, contents[1..][i], skip);
      assert contents[1..][i] == contents[i + 1];
    }
  }

  /**
   * The walker returns exactly the files whose every ancestor directory and
   * the file itself pass `skip` (both directions).
   */
  lemma {:induction false} ListFilesIsReachable(dir: string, contents: seq<Entry>, skip: Entry -> bool, p: string)
    ensures p in ListFiles(dir, contents, skip) <==> Reachable(dir, contents, skip, p)
    decreases contents
  {
    if p in ListFiles(dir, contents, skip) {
      ListedIsReachable(dir, contents, skip, p);
    }
    if Reachable(dir, contents, skip, p) {
      var chain :| IsChain(contents, chain) && Accepted(chain, skip) && p == PathOf(dir, chain);
      ReachableIsListed(dir, contents, skip, chain);
    }
  }

  lemma {:induction false} ListedIsReachable(dir: string, contents: seq<Entry>, skip: Entry -> bool, p: string)
    requires p in ListFiles(dir, contents, skip)
    ensures Reachable(dir, contents, skip, p)
    decreases contents
  {
    ContributedBy(dir, contents, skip, p);
    var i :| 0 <= i < |contents| && p in ListEntry(dir, contents[i], skip);
    var e := contents[i];
    match e
    case File(name, _) =>
      var chain := [e];
      assert PathOf(Join(dir, name), []) == Join(dir, name);
      assert IsChain(contents, chain) && Accepted(chain, skip) && p == PathOf(dir, chain);
    case Dir(name, _, children) =>
      ListedIsReachable(Join(dir, name), children, skip, p);
      var sub :| IsChain(children, sub) && Accepted(sub, skip) && p == PathOf(Join(dir, name), sub);
      var chain := [e] + sub;
      assert chain[1..] == sub;
      assert IsChain(contents, chain) by {
        forall j | 0 <= j < |chain| - 1
          ensures chain[j].Dir? && chain[j + 1] in chain[j].children
        {
          if j > 0 {
            assert chain[j] == sub[j - 1] && chain[j + 1] == sub[j];
          }
        }
      }
      assert Accepted(chain, skip) by {
        forall j | 0 <= j < |chain| ensures skip(chain[j]) {
          if j > 0 { assert chain[j] == sub[j - 1]; }
        }
      }
  }

  lemma {:induction false} ReachableIsListed(dir: string, contents: seq<Entry>, skip: Entry -> bool, chain: seq<Entry>)
    requires IsChain(contents, chain) && Accepted(chain, skip)
    ensures PathOf(dir, chain) in ListFiles(dir, contents, skip)
    decreases contents
  {
    var e := chain[0];
    var i :| 0 <= i < |contents| && contents[i] == e;
    assert skip(e);
    EntryContributes(dir, contents, e, skip);
    if |chain| == 1 {
      assert PathOf(dir, chain) == PathOf(Join(dir, e.name), []);
    } else {
      var sub := chain[1..];
      assert IsChain(e.children, sub) by {
        forall j | 0 <= j < |sub| - 1
          ensures sub[j].Dir? && sub[j + 1] in sub[j].children
        {
          assert sub[j] == chain[j + 1] && sub[j + 1] == chain[j + 2];
        }
      }
      assert Accepted(sub, skip) by {
        forall j | 0 <= j < |sub| ensures skip(sub[j]) {
          assert sub[j] == chain[j + 1];
        }
      }
      ReachableIsListed(Join(dir, e.name), e.children, skip, sub);
    }
  }

  // ---------------------------------------------------------------------
  // No duplicates

  /** Sibling names are distinct and no name contains a slash, at every level. */
  ghost predicate WellNamed(contents: seq<Entry>) {
    && (forall i, j :: 0 <= i < j < |contents| ==> contents[i].name != contents[j].name)
    && (forall i :: 0 <= i < |contents| ==> '/' !in contents[i].name)
    && (forall i :: 0 <= i < |contents| && contents[i].Dir? ==> WellNamed(contents[i].children))
  }

  /** Two sibling entries with different slash-free names contribute disjoint paths. */
  lemma SiblingsDisjoint(dir: string, e1: Entry, e2: Entry, skip: Entry -> bool, p: string)
    requires e1.name != e2.name && '/' !in e1.name && '/' !in e2.name
    requires p in ListEntry(dir, e1, skip)
    ensures p !in ListEntry(dir, e2, skip)
  {
    EntryUnderDir(dir, e1, skip);
    EntryUnderDir(dir, e2, skip);
  }

  /** In a well-named tree the walker never returns the same path twice. */
  lemma {:induction false} ListFilesNoDuplicates(dir: string, contents: seq<Entry>, skip: Entry -> bool)
    requires WellNamed(contents)
    ensures NoDuplicates(ListFiles(dir, contents, skip))
    decreases contents
  {
    if contents != [] {
      var e := contents[0];
      var rest := contents[1..];
      assert WellNamed(rest) by {
        forall i | 0 <= i < |rest| && rest[i].Dir? ensures WellNamed(rest[i].children) {
          assert rest[i] == contents[i + 1];
        }
      }
      ListFilesNoDuplicates(dir, rest, skip);
      EntryNoDuplicates(dir, e, skip);
      var a, b := ListEntry(dir, e, skip), ListFiles(dir, rest, skip);
      forall i, j | 0 <= i < |a| && 0 <= j < |b| ensures a[i] != b[j] {
        ContributedBy(dir, rest, skip, b[j]);
        var m :| 0 <= m < |rest| && b[j] in ListEntry(dir, rest[m], skip);
        assert rest[m] == contents[m + 1];
        SiblingsDisjoint(dir, rest[m], e, skip, b[j]);
      }
      assert ListFiles(dir, contents, skip) == a + b;
    }
  }

  lemma {:induction false} EntryNoDuplicates(dir: string, e: Entry, skip: Entry -> bool)
    requires e.Dir? ==> WellNamed(e.children)
    ensures NoDuplicates(ListEntry(dir, e, skip))
    decreases e
  {
    if skip(e) && e.Dir? {
      ListFilesNoDuplicates(Join(dir, e.name), e.children, skip);
    }
  }

  // ---------------------------------------------------------------------
  // The walker as the source writes it

  /** One more entry of a listing appends what that entry contributes. */
  lemma ListStep(dir: string, kept: seq<Entry>, i: nat, skip: Entry -> bool)
    requires i < |kept|
    ensures ListFiles(dir, kept[..i + 1], skip) == ListFiles(dir, kept[..i], skip) + ListEntry(dir, kept[i], skip)
  {
    var c := kept[i];
    assert kept[..i + 1] == kept[..i] + [c];
    ListFilesAppend(dir, kept[..i], [c], skip);
    assert ListFiles(dir, [c], skip) == ListEntry(dir, c, skip) + ListFiles(dir, [], skip);
    assert ListEntry(dir, c, skip) + [] == ListEntry(dir, c, skip);
  }

  /**
   * recListFiles: filter the listing, then append a file's joined path or a
   * subdirectory's whole recursive listing, entry by entry.
   */
  method RecListFiles(dir: string, contents: seq<Entry>, skip: Entry -> bool) returns (files: seq<string>)
    ensures files == ListFiles(dir, contents, skip)
    decreases contents
  {
    files := [];
    var kept := Kept(contents, skip);
    for i := 0 to |kept|
      invariant files == ListFiles(dir, kept[..i], skip)
    {
      var c := kept[i];
      ListStep(dir, kept, i, skip);
      assert c in kept;
      if c.Dir? {
        var sub := RecListFiles(Join(dir, c.name), c.children, skip);
        files := files + sub;
      } else {
        files := files + [Join(dir, c.name)];
      }
    }
    assert kept[..|kept|] == kept;
    ListFilesKept(dir, contents, skip);
  }
}
