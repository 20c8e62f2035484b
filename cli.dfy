/**
 * The command line front end (src/index.ts): argument parsing, the entry
 * filter, and the page around the rendered tree. Exiting the process becomes
 * an `Exit` result; the file system checks on the directory are parameters.
 */
module Cli {
  import opened Strings
  import opened Tree
  import opened Markup
  import opened Render
  import opened Upload

  const DEFAULT_PORTAL := "https://siasky.net/"
  const DEFAULT_DIRECTORY := "."

  // ---------------------------------------------------------------------
  // The entry filter

  /** skip: keep an entry unless it is a symbolic link or its name starts with a dot. */
  function Skip(e: Entry): bool {
    !e.symlink && !StartsWith(e.name, ".")
  }

  /**
   * Every path listed with `Skip` is reached through entries that are all
   * neither symbolic links nor hidden: neither the file nor any directory above it.
   */
  lemma HiddenNeverListed(dir: string, contents: seq<Entry>, p: string)
    requires p in ListFiles(dir, contents, Skip)
    ensures exists chain: seq<Entry> ::
      (IsChain(contents, chain) && p == PathOf(dir, chain) &&
       forall j :: 0 <= j < |chain| ==> !chain[j].symlink && !StartsWith(chain[j].name, "."))
  {
    ListFilesIsReachable(dir, contents, Skip, p);
    var chain :| IsChain(contents, chain) && Accepted(chain, Skip) && p == PathOf(dir, chain);
    assert forall j :: 0 <= j < |chain| ==> Skip(chain[j]);
  }

  /** A hidden or symlinked directory contributes no file and no markup, however deep its subtree. */
  lemma HiddenSubtreePruned(dir: string, name: string, symlink: bool, children: seq<Entry>, skylinks: map<string, string>)
    requires symlink || StartsWith(name, ".")
    ensures ListEntry(dir, Dir(name, symlink, children), Skip) == []
    ensures OutlineEntry(dir, Dir(name, symlink, children), Skip, skylinks) == []
  {
  }

  // ---------------------------------------------------------------------
  // Argument parsing

  /** Why `parseArgs` printed a message and exited with status 0. */
  datatype ExitReason =
    | Usage
    | Help
    | UnknownOption(option: string)
    | MissingDirectory(directory: string)
    | NotADirectory(directory: string)

  /** A portal value: `args[i + 1]` is `undefined` when `-p` is the last argument. */
  datatype PortalValue = Given(url: string) | Undefined

  /** The `out` record `parseArgs` fills in. */
  datatype Options = Options(portal: PortalValue, directory: string)

  /**
   * What `parseArgs` ends with: an exit, the TypeError thrown by trimming an
   * undefined portal, or the configuration.
   */
  datatype Parsed = Exit(reason: ExitReason) | Crash | Config(portal: string, directory: string)

  /** The outcome of the option loop. */
  datatype Scan = Scanned(portal: PortalValue) | Stopped(reason: ExitReason)

  predicate IsPortalFlag(a: string) { a == "-p" || a == "--portal" }

  predicate IsHelpFlag(a: string) { a == "-h" || a == "--help" }

  /** The exit an option at an option position other than `-p`/`--portal` causes. */
  function StopReason(a: string): ExitReason {
    if IsHelpFlag(a) then Help else UnknownOption(a)
  }

  /** The option loop from index `i` on, in steps of two, with the portal chosen so far. */
  function ScanOptions(args: seq<string>, i: nat, portal: PortalValue): Scan
    decreases |args| - i
  {
    if i >= |args| then Scanned(portal)
    else if IsPortalFlag(args[i]) then
      ScanOptions(args, i + 2, if i + 1 < |args| then Given(args[i + 1]) else Undefined)
    else Stopped(StopReason(args[i]))
  }

  /**
   * The portal with exactly one trailing slash added back after trimming one:
   * it always ends in a slash, is unchanged when it already did, and gains
   * exactly one slash otherwise.
   */
  function NormalizePortal(p: string): (r: string)
    ensures EndsWithSlash(r)
    ensures EndsWithSlash(p) ==> r == p
    ensures !EndsWithSlash(p) ==> r == p + "/"
  {
    TrimTrailingSlash(p) + "/"
  }

  /**
   * parseArgs: fewer than two arguments exit; `args[1]` is the directory; the
   * options at indices 2, 4, 6, … set the portal or exit; the portal is then
   * normalised and the directory checked with the `exists` and `isDirectory`
   * file system queries.
   */
  function Parse(args: seq<string>, pathExists: string -> bool, isDirectory: string -> bool): (r: Parsed)
    ensures |args| < 2 ==> r == Exit(Usage)
    ensures r.Config? ==> r.directory == args[1] && EndsWithSlash(r.portal)
  {
    if |args| < 2 then Exit(Usage)
    else match ScanOptions(args, 2, Given(DEFAULT_PORTAL))
      case Stopped(reason) => Exit(reason)
      case Scanned(Undefined) => Crash
      case Scanned(Given(p)) =>
        var portal := NormalizePortal(p);
        if !pathExists(args[1]) then Exit(MissingDirectory(args[1]))
        else if !isDirectory(args[1]) then Exit(NotADirectory(args[1]))
        else Config(portal, args[1])
  }

  /** The option `m` steps of two after index `i` exists and is not `-p`/`--portal`. */
  ghost predicate StopsAt(args: seq<string>, i: nat, m: nat) {
    i + 2 * m < |args| && !IsPortalFlag(args[i + 2 * m])
  }

  /** Every option before the `m`-th one from `i` is `-p`/`--portal`. */
  ghost predicate PortalsBefore(args: seq<string>, i: nat, m: nat) {
    forall m' :: 0 <= m' < m ==> !StopsAt(args, i, m')
  }

  lemma StopsShift(args: seq<string>, i: nat, m: nat)
    ensures StopsAt(args, i, m + 1) <==> StopsAt(args, i + 2, m)
  {
    assert i + 2 * (m + 1) == (i + 2) + 2 * m;
  }

  /** An option position that is not `-p`/`--portal` stops the loop. */
  lemma {:induction false} ScanFindsStop(args: seq<string>, i: nat, portal: PortalValue, m: nat)
    requires StopsAt(args, i, m)
    ensures ScanOptions(args, i, portal).Stopped?
    decreases m
  {
    if m > 0 && IsPortalFlag(args[i]) {
      var next := if i + 1 < |args| then Given(args[i + 1]) else Undefined;
      StopsShift(args, i, m - 1);
      ScanFindsStop(args, i + 2, next, m - 1);
    }
  }

  /** A stopped loop stopped at the first option that is not `-p`/`--portal`, with its reason. */
  lemma {:induction false} ScanStopWitness(args: seq<string>, i: nat, portal: PortalValue)
    requires ScanOptions(args, i, portal).Stopped?
    ensures exists m: nat :: (StopsAt(args, i, m) && PortalsBefore(args, i, m)
      && ScanOptions(args, i, portal).reason == StopReason(args[i + 2 * m]))
    decreases |args| - i
  {
    if IsPortalFlag(args[i]) {
      var next := if i + 1 < |args| then Given(args[i + 1]) else Undefined;
      var i2 := i + 2;
      ScanStopWitness(args, i2, next);
      var m: nat :| StopsAt(args, i2, m) && PortalsBefore(args, i2, m)
        && ScanOptions(args, i2, next).reason == StopReason(args[i2 + 2 * m]);
      StopsShift(args, i, m);
      assert PortalsBefore(args, i, m + 1) by {
        forall m': nat | m' < m + 1 ensures !StopsAt(args, i, m') {
          if m' > 0 { StopsShift(args, i, m' - 1); }
        }
      }
      assert i + 2 * (m + 1) == i2 + 2 * m;
    } else {
      assert StopsAt(args, i, 0) && PortalsBefore(args, i, 0);
    }
  }

  /**
   * The loop stops exactly when an option position holds something other than
   * `-p`/`--portal`, and then with the reason that the first such option gives.
   */
  lemma ScanStops(args: seq<string>, i: nat, portal: PortalValue)
    ensures ScanOptions(args, i, portal).Stopped? <==> exists m: nat :: StopsAt(args, i, m)
    ensures ScanOptions(args, i, portal).Stopped? ==>
      exists m: nat :: StopsAt(args, i, m) && PortalsBefore(args, i, m)
        && ScanOptions(args, i, portal).reason == StopReason(args[i + 2 * m])
  {
    forall m: nat | StopsAt(args, i, m) ensures ScanOptions(args, i, portal).Stopped? {
      ScanFindsStop(args, i, portal, m);
    }
    if ScanOptions(args, i, portal).Stopped? {
      ScanStopWitness(args, i, portal);
    }
  }

  /**
   * When every option position holds `-p`/`--portal`, the loop ends with the
   * last option's value: the final argument when an even number of arguments
   * is left, `undefined` when the last `-p` has nothing after it.
   */
  lemma {:induction false} ScanPortal(args: seq<string>, i: nat, portal: PortalValue)
    requires forall m: nat :: !StopsAt(args, i, m)
    ensures i >= |args| ==> ScanOptions(args, i, portal) == Scanned(portal)
    ensures i < |args| && (|args| - i) % 2 == 0 ==> ScanOptions(args, i, portal) == Scanned(Given(args[|args| - 1]))
    ensures i < |args| && (|args| - i) % 2 == 1 ==> ScanOptions(args, i, portal) == Scanned(Undefined)
    decreases |args| - i
  {
    if i < |args| {
      assert !StopsAt(args, i, 0);
      var next := if i + 1 < |args| then Given(args[i + 1]) else Undefined;
      var i2 := i + 2;
      assert forall m: nat :: !StopsAt(args, i2, m) by {
        forall m: nat ensures !StopsAt(args, i2, m) {
          assert !StopsAt(args, i, m + 1);
        }
      }
      ScanPortal(args, i2, next);
    }
  }

  /** parseArgs exits through its usage text exactly when there are too few arguments or a bad option. */
  lemma OptionExitIff(args: seq<string>, pathExists: string -> bool, isDirectory: string -> bool)
    ensures (Parse(args, pathExists, isDirectory) in {Exit(Usage), Exit(Help)} || (Parse(args, pathExists, isDirectory).Exit? && Parse(args, pathExists, isDirectory).reason.UnknownOption?))
      <==> |args| < 2 || exists m: nat :: StopsAt(args, 2, m)
  {
    if |args| >= 2 {
      ScanStops(args, 2, Given(DEFAULT_PORTAL));
    }
  }

  /**
   * The first option position holding something other than `-p`/`--portal`
   * decides the exit: `-h`/`--help` exits with the help text, anything else as
   * an unknown option.
   */
  lemma FirstBadOptionExits(args: seq<string>, pathExists: string -> bool, isDirectory: string -> bool, m: nat)
    requires StopsAt(args, 2, m) && PortalsBefore(args, 2, m)
    ensures Parse(args, pathExists, isDirectory) == Exit(StopReason(args[2 + 2 * m]))
  {
    ScanStops(args, 2, Given(DEFAULT_PORTAL));
    var m': nat :| StopsAt(args, 2, m') && PortalsBefore(args, 2, m')
      && ScanOptions(args, 2, Given(DEFAULT_PORTAL)).reason == StopReason(args[2 + 2 * m']);
    assert !(m' < m);
    assert !(m < m');
  }

  /**
   * With only portal options, the last one decides the portal: no option keeps
   * the default, an even count of arguments takes the final argument, and a
   * trailing `-p` with nothing after it crashes.
   */
  lemma LastPortalWins(args: seq<string>, pathExists: string -> bool, isDirectory: string -> bool)
    requires |args| >= 2 && forall m: nat :: !StopsAt(args, 2, m)
    requires pathExists(args[1]) && isDirectory(args[1])
    ensures |args| == 2 ==> Parse(args, pathExists, isDirectory) == Config(DEFAULT_PORTAL, args[1])
    ensures |args| > 2 && |args| % 2 == 0 ==>
      Parse(args, pathExists, isDirectory) == Config(NormalizePortal(args[|args| - 1]), args[1])
    ensures |args| % 2 == 1 ==> Parse(args, pathExists, isDirectory) == Crash
  {
    ScanPortal(args, 2, Given(DEFAULT_PORTAL));
  }

  /** The directory checks run only once the options are accepted, in this order. */
  lemma DirectoryChecks(args: seq<string>, pathExists: string -> bool, isDirectory: string -> bool)
    requires |args| >= 2 && ScanOptions(args, 2, Given(DEFAULT_PORTAL)).Scanned?
    requires ScanOptions(args, 2, Given(DEFAULT_PORTAL)).portal.Given?
    ensures !pathExists(args[1]) ==> Parse(args, pathExists, isDirectory) == Exit(MissingDirectory(args[1]))
    ensures pathExists(args[1]) && !isDirectory(args[1]) ==> Parse(args, pathExists, isDirectory) == Exit(NotADirectory(args[1]))
    ensures pathExists(args[1]) && isDirectory(args[1]) ==> Parse(args, pathExists, isDirectory).Config?
  {
  }

  /**
   * parseArgs as the source writes it: the `out` record starts from the
   * defaults and is updated while the index steps by two.
   */
  method ParseArgs(args: seq<string>, pathExists: string -> bool, isDirectory: string -> bool) returns (r: Parsed)
    ensures r == Parse(args, pathExists, isDirectory)
  {
    if |args| < 2 {
      return Exit(Usage);
    }
    var out := Options(Given(DEFAULT_PORTAL), DEFAULT_DIRECTORY);
    out := out.(directory := args[1]);
    var i := 2;
    while i < |args|
      invariant i >= 2
      invariant out.directory == args[1]
      invariant ScanOptions(args, i, out.portal) == ScanOptions(args, 2, Given(DEFAULT_PORTAL))
      decreases |args| - i
    {
      if IsPortalFlag(args[i]) {
        out := out.(portal := if i + 1 < |args| then Given(args[i + 1]) else Undefined);
      } else if IsHelpFlag(args[i]) {
        return Exit(Help);
      } else {
        return Exit(UnknownOption(args[i]));
      }
      i := i + 2;
    }
    match out.portal
    case Undefined =>
      return Crash;
    case Given(p) =>
      var portal := TrimTrailingSlash(p) + "/";
      if !pathExists(out.directory) {
        return Exit(MissingDirectory(out.directory));
      }
      if !isDirectory(out.directory) {
        return Exit(NotADirectory(out.directory));
      }
      return Config(portal, out.directory);
  }

  // ---------------------------------------------------------------------
  // The page around the tree

  const Heading := Open("h3", "<h3 id=\"tree_label\">")
  const TreeOpen := Open("ul", "<ul role=\"tree\" aria-labelledby=\"tree_label\">")

  /** The heading and the outer `<ul role="tree">` around the rendered items. */
  function PageTokens(directory: string, items: seq<Item>): seq<Token> {
    [Heading] + [Chars("Contents of " + directory)] + [Close("h3")] + [TreeOpen] + Tokens(items) + [Close("ul")]
  }

  /** The page is well nested whatever the items are. */
  lemma PageWellNested(directory: string, items: seq<Item>)
    ensures WellNested(PageTokens(directory, items))
  {
    var heading := [Heading] + [Chars("Contents of " + directory)] + [Close("h3")];
    var tree := [TreeOpen] + Tokens(items) + [Close("ul")];
    BalancedChars("Contents of " + directory);
    BalancedElement("h3", Heading.text, [Chars("Contents of " + directory)]);
    TokensBalanced(items);
    BalancedElement("ul", TreeOpen.text, Tokens(items));
    BalancedAppend(heading, tree);
    AppendAssoc(heading + [TreeOpen], Tokens(items), [Close("ul")]);
    AppendAssoc(heading, [TreeOpen], Tokens(items));
    AppendAssoc(heading, [TreeOpen] + Tokens(items), [Close("ul")]);
    assert PageTokens(directory, items) == heading + tree;
    BalancedIsWellNested(heading + tree);
  }

  /** The text `init` builds around `inner` is the page's tokens' text. */
  lemma PageText(directory: string, items: seq<Item>)
    ensures "<h3 id=\"tree_label\">" + ("Contents of " + directory) + "</h3>"
      + "<ul role=\"tree\" aria-labelledby=\"tree_label\">" + Html(Tokens(items)) + "</ul>"
      == Html(PageTokens(directory, items))
  {
    assert Html([]) == "";
    PageTextAfter("", [], directory, items);
    assert [] + PageTokens(directory, items) == PageTokens(directory, items);
    assert "" + "<h3 id=\"tree_label\">" == "<h3 id=\"tree_label\">";
  }

  lemma PageTextAfter(prefix: string, ts: seq<Token>, directory: string, items: seq<Item>)
    requires prefix == Html(ts)
    ensures prefix + "<h3 id=\"tree_label\">" + ("Contents of " + directory) + "</h3>"
      + "<ul role=\"tree\" aria-labelledby=\"tree_label\">" + Html(Tokens(items)) + "</ul>"
      == Html(ts + PageTokens(directory, items))
  {
    assert TokenText(Close("h3")) == "</h3>" && TokenText(Close("ul")) == "</ul>";
    var title := Chars("Contents of " + directory);
    var h, t, p := prefix, ts, [];
    assert ts + [] == ts;
    h := h + "<h3 id=\"tree_label\">";
    Emit(t, Heading); AppendAssoc(ts, p, [Heading]); t, p := t + [Heading], p + [Heading];
    assert h == Html(t) && t == ts + p;
    h := h + ("Contents of " + directory);
    Emit(t, title); AppendAssoc(ts, p, [title]); t, p := t + [title], p + [title];
    assert h == Html(t) && t == ts + p;
    h := h + "</h3>";
    Emit(t, Close("h3")); AppendAssoc(ts, p, [Close("h3")]); t, p := t + [Close("h3")], p + [Close("h3")];
    assert h == Html(t) && t == ts + p;
    h := h + "<ul role=\"tree\" aria-labelledby=\"tree_label\">";
    Emit(t, TreeOpen); AppendAssoc(ts, p, [TreeOpen]); t, p := t + [TreeOpen], p + [TreeOpen];
    assert h == Html(t) && t == ts + p;
    h := h + Html(Tokens(items));
    HtmlAppend(t, Tokens(items)); AppendAssoc(ts, p, Tokens(items)); t, p := t + Tokens(items), p + Tokens(items);
    assert h == Html(t) && t == ts + p;
    h := h + "</ul>";
    Emit(t, Close("ul")); AppendAssoc(ts, p, [Close("ul")]); t, p := t + [Close("ul")], p + [Close("ul")];
    assert h == Html(t) && t == ts + p;
    assert [] + [Heading] == [Heading];
    assert p == PageTokens(directory, items);
  }

  /**
   * The tree part of `init`: heading, outer list, the rendered directory and
   * the closing tag, appended in turn; the result is the page's text.
   */
  method BuildTreeHtml(directory: string, contents: seq<Entry>, skylinks: map<string, string>) returns (treeHtml: string)
    ensures treeHtml == Html(PageTokens(directory, Outline(directory, contents, Skip, skylinks)))
  {
    treeHtml := "<h3 id=\"tree_label\">" + ("Contents of " + directory) + "</h3>";
    treeHtml := treeHtml + "<ul role=\"tree\" aria-labelledby=\"tree_label\">";
    var inner := RecBuildDirHTML(directory, contents, Skip, skylinks);
    treeHtml := treeHtml + inner;
    treeHtml := treeHtml + "</ul>";
    PageText(directory, Outline(directory, contents, Skip, skylinks));
  }

  // ---------------------------------------------------------------------
  // Walk, upload, render

  /**
   * With the all-or-nothing batch, a successful upload of the listed files
   * gives a page whose leaves, in order, link every listed path to a skylink
   * its upload returned: none links to `sia://undefined`.
   */
  lemma IndexLinksResolved(directory: string, contents: seq<Entry>, outcomes: seq<Outcome>)
    requires |outcomes| == |ListFiles(directory, contents, Skip)|
    requires UploadAll(ListFiles(directory, contents, Skip), outcomes).Collected?
    ensures var files := ListFiles(directory, contents, Skip);
      var skylinks := UploadAll(files, outcomes).skylinks;
      var leaves := Leaves(Outline(directory, contents, Skip, skylinks));
      |leaves| == |files| &&
      forall i :: 0 <= i < |files| ==>
        files[i] in skylinks && leaves[i] == (skylinks[files[i]], BaseName(files[i])) &&
        skylinks[files[i]] in ReturnedFor(files, outcomes, files[i])
  {
    var files := ListFiles(directory, contents, Skip);
    var skylinks := UploadAll(files, outcomes).skylinks;
    NoUndefinedLinks(directory, contents, Skip, skylinks);
  }

  /** In mock mode every leaf of the page links to a 64-character skylink, never to `undefined`. */
  lemma MockRunLinksResolved(directory: string, contents: seq<Entry>, outcomes: seq<Outcome>)
    requires |outcomes| == |ListFiles(directory, contents, Skip)|
    requires forall i :: 0 <= i < |outcomes| ==> outcomes[i].Ok? && MockShaped(outcomes[i].skylink)
    ensures var files := ListFiles(directory, contents, Skip);
      var leaves := Leaves(Outline(directory, contents, Skip, Collect(files, outcomes)));
      |leaves| == |files| &&
      forall i :: 0 <= i < |leaves| ==> MockShaped(leaves[i].0) && leaves[i].0 != "undefined"
  {
    var files := ListFiles(directory, contents, Skip);
    var skylinks := Collect(files, outcomes);
    MockBatchShaped(files, outcomes);
    NoUndefinedLinks(directory, contents, Skip, skylinks);
    var leaves := Leaves(Outline(directory, contents, Skip, skylinks));
    forall i | 0 <= i < |leaves| ensures MockShaped(leaves[i].0) && leaves[i].0 != "undefined" {
      assert files[i] in files;
      assert leaves[i].0 == skylinks[files[i]];
      assert |leaves[i].0| == 64;
    }
  }

  /**
   * As written, a failed upload still yields a map, and the page then links
   * the failed file to `sia://undefined`.
   */
  lemma AsWrittenPageHasUndefinedLink()
    ensures var contents := [File("a", false), File("b", false)];
      var outcomes := [Ok("x"), Err("Upload failed, e")];
      var leaves := Leaves(Outline(".", contents, Skip, Collect(["./a", "./b"], outcomes)));
      ListFiles(".", contents, Skip) == ["./a", "./b"] && |leaves| == 2 &&
      leaves[0] == ("x", "a") && leaves[1] == ("undefined", "b")
  {
    var contents := [File("a", false), File("b", false)];
    var outcomes := [Ok("x"), Err("Upload failed, e")];
    TwoFileListing();
    PartialBatch();
    var files := ["./a", "./b"];
    var m := Collect(files, outcomes);
    LeavesAgreeWithListing(".", contents, Skip, m);
    LinkAt(files, m, 0);
    LinkAt(files, m, 1);
    assert Join(".", "a") == files[0] && Join(".", "b") == files[1];
    BaseNameOfJoin(".", "a");
    BaseNameOfJoin(".", "b");
    assert Link(m, files[0]) == ("x", "a");
    assert files[1] !in m;
    assert Link(m, files[1]) == ("undefined", "b");
  }

  /** Two visible files `a` and `b` in `.` are listed as `./a`, `./b`. */
  lemma TwoFileListing()
    ensures ListFiles(".", [File("a", false), File("b", false)], Skip) == ["./a", "./b"]
  {
    var a, b := File("a", false), File("b", false);
    assert "a"[..1][0] != "."[0] && "b"[..1][0] != "."[0];
    assert Skip(a) && Skip(b);
    assert Join(".", "a") == "./a" && Join(".", "b") == "./b";
    assert ListEntry(".", a, Skip) == ["./a"] && ListEntry(".", b, Skip) == ["./b"];
    assert [a, b][1..] == [b] && [b][1..] == [];
    assert ListFiles(".", [b], Skip) == ["./b"];
  }

  /** A batch whose second upload fails yields the map of the first alone. */
  lemma PartialBatch()
    ensures Collect(["./a", "./b"], [Ok("x"), Err("Upload failed, e")]) == map["./a" := "x"]
  {
    var files, outcomes := ["./a", "./b"], [Ok("x"), Err("Upload failed, e")];
    assert files[..1] == ["./a"] && outcomes[..1] == [Ok("x")];
    assert ["./a"][..0] == [] && [Ok("x")][..0] == [];
    assert Collect(["./a"], [Ok("x")]) == map["./a" := "x"];
  }
}
