/**
 * The tree renderer `recBuildDirHTML` (src/utils.ts). It re-walks the same
 * listing as the walker and emits a `<li>` per kept entry: a leaf linking to
 * the file's skylink, or a collapsible group holding the directory's items.
 */
module Render {
  import opened Strings
  import opened Tree
  import opened Markup

  /** The structure behind the emitted markup. */
  datatype Item =
    | Doc(link: string, caption: string)
    | Group(caption: string, items: seq<Item>)

  /** `skylinks[fullpath]` inside a template literal: a missing key prints as `undefined`. */
  function Lookup(skylinks: map<string, string>, path: string): (r: string)
    ensures path in skylinks ==> r == skylinks[path]
    ensures path !in skylinks ==> r == "undefined"
  {
    if path in skylinks then skylinks[path] else "undefined"
  }

  /** The items `recBuildDirHTML` emits for the listing `contents` of `dir`. */
  function Outline(dir: string, contents: seq<Entry>, skip: Entry -> bool, skylinks: map<string, string>): seq<Item>
    decreases contents
  {
    if contents == [] then []
    else OutlineEntry(dir, contents[0], skip, skylinks) + Outline(dir, contents[1..], skip, skylinks)
  }

  function OutlineEntry(dir: string, e: Entry, skip: Entry -> bool, skylinks: map<string, string>): seq<Item>
    decreases e
  {
    if !skip(e) then []
    else
      var fullpath := Join(dir, e.name);
      match e
      case File(_, _) => [Doc(Lookup(skylinks, fullpath), BaseName(fullpath))]
      case Dir(name, _, children) => [Group(name, Outline(fullpath, children, skip, skylinks))]
  }

  /** The opening tags the renderer writes, as the source writes them. */
  const DocOpen := Open("li", "<li role=\"treeitem\" class=\"doc\">")
  const GroupOpen := Open("li", "<li role=\"treeitem\" aria-expanded=\"false\">")
  const GroupListOpen := Open("ul", "<ul role=\"group\">")
  const CaptionOpen := Open("span", "<span>")

  /** The anchor of a leaf, pointing at `sia://` followed by its skylink. */
  function AnchorOpen(link: string): Token {
    Open("a", "<a href=\"sia://" + link + "\">")
  }

  /** The tokens of one item: a leaf `<li><a>` or a group `<li><span/><ul>…</ul></li>`. */
  function ItemTokens(it: Item): seq<Token>
    decreases it
  {
    match it
    case Doc(link, caption) =>
      [DocOpen] + [AnchorOpen(link)] + [Chars(caption)] + [Close("a")] + [Close("li")]
    case Group(caption, items) =>
      [GroupOpen] + [CaptionOpen] + [Chars(caption)] + [Close("span")] + [GroupListOpen]
      + Tokens(items) + [Close("ul")] + [Close("li")]
  }

  function Tokens(items: seq<Item>): seq<Token>
    decreases items
  {
    if items == [] then [] else ItemTokens(items[0]) + Tokens(items[1..])
  }

  // ---------------------------------------------------------------------
  // Structural facts about the views

  lemma {:induction false} OutlineAppend(dir: string, a: seq<Entry>, b: seq<Entry>, skip: Entry -> bool, skylinks: map<string, string>)
    ensures Outline(dir, a + b, skip, skylinks) == Outline(dir, a, skip, skylinks) + Outline(dir, b, skip, skylinks)
  {
    if a == [] {
      assert a + b == b;
    } else {
      assert (a + b)[0] == a[0];
      assert (a + b)[1..] == a[1..] + b;
      OutlineAppend(dir, a[1..], b, skip, skylinks);
    }
  }

  lemma {:induction false} OutlineKept(dir: string, contents: seq<Entry>, skip: Entry -> bool, skylinks: map<string, string>)
    ensures Outline(dir, Kept(contents, skip), skip, skylinks) == Outline(dir, contents, skip, skylinks)
  {
    if contents != [] {
      var head := if skip(contents[0]) then [contents[0]] else [];
      OutlineAppend(dir, head, Kept(contents[1..], skip), skip, skylinks);
      OutlineKept(dir, contents[1..], skip, skylinks);
      if skip(contents[0]) {
        assert Outline(dir, head, skip, skylinks) == OutlineEntry(dir, contents[0], skip, skylinks) + Outline(dir, [], skip, skylinks);
      }
    }
  }

  lemma {:induction false} TokensAppend(a: seq<Item>, b: seq<Item>)
    ensures Tokens(a + b) == Tokens(a) + Tokens(b)
  {
    if a == [] {
      assert a + b == b;
    } else {
      assert (a + b)[0] == a[0];
      assert (a + b)[1..] == a[1..] + b;
      TokensAppend(a[1..], b);
    }
  }

  // ---------------------------------------------------------------------
  // The renderer agrees with the walker

  /** The (link, caption) pair of every leaf, in document order. */
  function Leaves(items: seq<Item>): seq<(string, string)>
    decreases items
  {
    if items == [] then []
    else
      (match items[0]
       case Doc(link, caption) => [(link, caption)]
       case Group(_, sub) => Leaves(sub))
      + Leaves(items[1..])
  }

  /** The leaf a listed path should get: its looked-up skylink and its base name. */
  function Link(skylinks: map<string, string>, path: string): (string, string) {
    (Lookup(skylinks, path), BaseName(path))
  }

  /** `f` applied to every element of `s`, in order. */
  function SeqMap<A, B>(f: A -> B, s: seq<A>): seq<B> {
    if s == [] then [] else [f(s[0])] + SeqMap(f, s[1..])
  }

  lemma {:induction false} SeqMapLength<A, B>(f: A -> B, s: seq<A>)
    ensures |SeqMap(f, s)| == |s|
  {
    if s != [] {
      SeqMapLength(f, s[1..]);
    }
  }

  lemma {:induction false} SeqMapAt<A, B>(f: A -> B, s: seq<A>, i: nat)
    requires i < |s|
    ensures |SeqMap(f, s)| == |s| && SeqMap(f, s)[i] == f(s[i])
  {
    SeqMapLength(f, s);
    if i > 0 {
      SeqMapAt(f, s[1..], i - 1);
      assert s[1..][i - 1] == s[i];
    }
  }

  lemma {:induction false} SeqMapAppend<A, B>(f: A -> B, a: seq<A>, b: seq<A>)
    ensures SeqMap(f, a + b) == SeqMap(f, a) + SeqMap(f, b)
  {
    if a == [] {
      assert a + b == b;
    } else {
      assert (a + b)[0] == a[0];
      assert (a + b)[1..] == a[1..] + b;
      SeqMapAppend(f, a[1..], b);
    }
  }

  /** The leaves the listed paths should get, in listing order. */
  function Links(paths: seq<string>, skylinks: map<string, string>): seq<(string, string)> {
    SeqMap(p => Link(skylinks, p), paths)
  }

  /** Leaf `i` of `Links` belongs to path `i`, and there is one leaf per path. */
  lemma LinkAt(paths: seq<string>, skylinks: map<string, string>, i: nat)
    requires i < |paths|
    ensures |Links(paths, skylinks)| == |paths| && Links(paths, skylinks)[i] == Link(skylinks, paths[i])
  {
    SeqMapAt(p => Link(skylinks, p), paths, i);
  }

  lemma {:induction false} LeavesAppend(a: seq<Item>, b: seq<Item>)
    ensures Leaves(a + b) == Leaves(a) + Leaves(b)
  {
    if a == [] {
      assert a + b == b;
    } else {
      assert (a + b)[0] == a[0];
      assert (a + b)[1..] == a[1..] + b;
      LeavesAppend(a[1..], b);
    }
  }

  lemma LinksAppend(a: seq<string>, b: seq<string>, skylinks: map<string, string>)
    ensures Links(a + b, skylinks) == Links(a, skylinks) + Links(b, skylinks)
  {
    SeqMapAppend(p => Link(skylinks, p), a, b);
  }

  /**
   * Central theorem: the leaves the renderer emits, in order, are exactly the
   * paths the walker lists, each linking to its looked-up skylink and labelled
   * with its base name.
   */
  lemma {:induction false} LeavesAgreeWithListing(dir: string, contents: seq<Entry>, skip: Entry -> bool, skylinks: map<string, string>)
    ensures Leaves(Outline(dir, contents, skip, skylinks)) == Links(ListFiles(dir, contents, skip), skylinks)
    decreases contents
  {
    if contents != [] {
      var e := contents[0];
      EntryLeavesAgree(dir, e, skip, skylinks);
      LeavesAgreeWithListing(dir, contents[1..], skip, skylinks);
      LeavesAppend(OutlineEntry(dir, e, skip, skylinks), Outline(dir, contents[1..], skip, skylinks));
      LinksAppend(ListEntry(dir, e, skip), ListFiles(dir, contents[1..], skip), skylinks);
    }
  }

  lemma {:induction false} EntryLeavesAgree(dir: string, e: Entry, skip: Entry -> bool, skylinks: map<string, string>)
    ensures Leaves(OutlineEntry(dir, e, skip, skylinks)) == Links(ListEntry(dir, e, skip), skylinks)
    decreases e
  {
    if skip(e) {
      var fullpath := Join(dir, e.name);
      match e
      case File(_, _) =>
        assert [fullpath][1..] == [];
        assert Links([fullpath], skylinks) == [Link(skylinks, fullpath)] + Links([], skylinks);
        assert Leaves(OutlineEntry(dir, e, skip, skylinks)) == [(Lookup(skylinks, fullpath), BaseName(fullpath))] + Leaves([]);
      case Dir(name, _, children) =>
        LeavesAgreeWithListing(fullpath, children, skip, skylinks);
        var items := OutlineEntry(dir, e, skip, skylinks);
        assert Leaves(items) == Leaves(Outline(fullpath, children, skip, skylinks)) + Leaves(items[1..]);
        assert items[1..] == [];
    }
  }

  /**
   * When the map holds every listed path, every leaf links to that path's
   * skylink: none falls back to `sia://undefined`. The leaf's caption is the
   * entry name whenever names hold no slash.
   */
  lemma NoUndefinedLinks(dir: string, contents: seq<Entry>, skip: Entry -> bool, skylinks: map<string, string>)
    requires forall p :: p in ListFiles(dir, contents, skip) ==> p in skylinks
    ensures var files, leaves := ListFiles(dir, contents, skip), Leaves(Outline(dir, contents, skip, skylinks));
      |leaves| == |files| &&
      forall i :: 0 <= i < |files| ==> leaves[i] == (skylinks[files[i]], BaseName(files[i]))
  {
    var files := ListFiles(dir, contents, skip);
    LeavesAgreeWithListing(dir, contents, skip, skylinks);
    SeqMapLength(p => Link(skylinks, p), files);
    forall i | 0 <= i < |files| ensures Links(files, skylinks)[i] == Link(skylinks, files[i]) {
      LinkAt(files, skylinks, i);
    }
  }

  /** A path the map lacks yields a leaf whose link is the text `undefined`. */
  lemma MissingPathLinksUndefined(dir: string, contents: seq<Entry>, skip: Entry -> bool, skylinks: map<string, string>, i: nat)
    requires i < |ListFiles(dir, contents, skip)| && ListFiles(dir, contents, skip)[i] !in skylinks
    ensures i < |Leaves(Outline(dir, contents, skip, skylinks))|
    ensures Leaves(Outline(dir, contents, skip, skylinks))[i].0 == "undefined"
  {
    LeavesAgreeWithListing(dir, contents, skip, skylinks);
    LinkAt(ListFiles(dir, contents, skip), skylinks, i);
  }

  // ---------------------------------------------------------------------
  // Nesting

  /** How deep groups nest among the items. */
  function Depth(items: seq<Item>): nat
    decreases items
  {
    if items == [] then 0
    else
      var d := match items[0] case Doc(_, _) => 0 case Group(_, sub) => 1 + Depth(sub);
      var rest := Depth(items[1..]);
      if d < rest then rest else d
  }

  /** How deep kept directories nest in the listing. */
  function DirDepth(contents: seq<Entry>, skip: Entry -> bool): nat
    decreases contents
  {
    if contents == [] then 0
    else
      var e := contents[0];
      var d := if skip(e) && e.Dir? then 1 + DirDepth(e.children, skip) else 0;
      var rest := DirDepth(contents[1..], skip);
      if d < rest then rest else d
  }

  /** The `<ul role="group">` nesting depth of the rendered items equals the directory depth. */
  lemma {:induction false} DepthIsDirDepth(dir: string, contents: seq<Entry>, skip: Entry -> bool, skylinks: map<string, string>)
    ensures Depth(Outline(dir, contents, skip, skylinks)) == DirDepth(contents, skip)
    decreases contents
  {
    if contents != [] {
      var e := contents[0];
      var head := OutlineEntry(dir, e, skip, skylinks);
      var rest := Outline(dir, contents[1..], skip, skylinks);
      DepthIsDirDepth(dir, contents[1..], skip, skylinks);
      if skip(e) && e.Dir? {
        DepthIsDirDepth(Join(dir, e.name), e.children, skip, skylinks);
      }
      if head == [] {
        assert head + rest == rest;
      } else {
        assert |head| == 1;
        assert (head + rest)[0] == head[0];
        assert (head + rest)[1..] == rest;
      }
    }
  }

  /** Every item's token stream is balanced, so the rendered markup is well nested. */
  lemma {:induction false} TokensBalanced(items: seq<Item>)
    ensures Balanced(Tokens(items))
    decreases items
  {
    if items != [] {
      ItemBalanced(items[0]);
      TokensBalanced(items[1..]);
      BalancedAppend(ItemTokens(items[0]), Tokens(items[1..]));
    }
  }

  lemma {:induction false} ItemBalanced(it: Item)
    ensures Balanced(ItemTokens(it))
    decreases it
  {
    match it
    case Doc(link, caption) =>
      var a := [AnchorOpen(link)] + [Chars(caption)] + [Close("a")];
      BalancedChars(caption);
      BalancedElement("a", AnchorOpen(link).text, [Chars(caption)]);
      BalancedElement("li", DocOpen.text, a);
      assert ItemTokens(it) == [DocOpen] + a + [Close("li")];
    case Group(caption, items) =>
      var span := [CaptionOpen] + [Chars(caption)] + [Close("span")];
      var list := [GroupListOpen] + Tokens(items) + [Close("ul")];
      BalancedChars(caption);
      BalancedElement("span", CaptionOpen.text, [Chars(caption)]);
      TokensBalanced(items);
      BalancedElement("ul", GroupListOpen.text, Tokens(items));
      BalancedAppend(span, list);
      BalancedElement("li", GroupOpen.text, span + list);
      assert ItemTokens(it) == [GroupOpen] + (span + list) + [Close("li")];
  }

  // ---------------------------------------------------------------------
  // The renderer as the source writes it

  /** Emitting one more token appends its text. */
  lemma Emit(ts: seq<Token>, t: Token)
    ensures Html(ts + [t]) == Html(ts) + TokenText(t)
  {
    HtmlAppend(ts, [t]);
    assert Html([t]) == TokenText(t) + Html([]);
  }

  /** The texts of the closing tags the renderer writes. */
  lemma CloseTexts()
    ensures TokenText(Close("span")) == "</span>"
    ensures TokenText(Close("ul")) == "</ul>"
    ensures TokenText(Close("li")) == "</li>"
    ensures TokenText(Close("a")) == "</a>"
  {
  }

  /** The text the renderer appends for a subdirectory, after `prefix`, is its group's tokens' text. */
  lemma GroupText(prefix: string, ts: seq<Token>, name: string, items: seq<Item>)
    requires prefix == Html(ts)
    ensures prefix + "<li role=\"treeitem\" aria-expanded=\"false\">" + "<span>" + name + "</span>"
      + "<ul role=\"group\">" + Html(Tokens(items)) + "</ul>" + "</li>"
      == Html(ts + ItemTokens(Group(name, items)))
  {
    var head := [GroupOpen] + [CaptionOpen] + [Chars(name)] + [Close("span")] + [GroupListOpen];
    GroupHeadText(prefix, ts, name);
    GroupTailText(prefix + "<li role=\"treeitem\" aria-expanded=\"false\">" + "<span>" + name + "</span>"
      + "<ul role=\"group\">", ts, head, items);
    assert ItemTokens(Group(name, items)) == head + Tokens(items) + [Close("ul")] + [Close("li")];
  }

  /** Emitting five tokens after `ts` appends their five texts in turn. */
  lemma EmitFive(prefix: string, ts: seq<Token>, a: Token, b: Token, c: Token, d: Token, e: Token)
    requires prefix == Html(ts)
    ensures prefix + TokenText(a) + TokenText(b) + TokenText(c) + TokenText(d) + TokenText(e)
      == Html(ts + ([a] + [b] + [c] + [d] + [e]))
  {
    var t, p := ts, [];
    assert ts + [] == ts;
    Emit(t, a); AppendAssoc(ts, p, [a]); t, p := t + [a], p + [a];
    Emit(t, b); AppendAssoc(ts, p, [b]); t, p := t + [b], p + [b];
    Emit(t, c); AppendAssoc(ts, p, [c]); t, p := t + [c], p + [c];
    Emit(t, d); AppendAssoc(ts, p, [d]); t, p := t + [d], p + [d];
    Emit(t, e); AppendAssoc(ts, p, [e]); t, p := t + [e], p + [e];
    assert [] + [a] == [a];
  }

  /** The opening part of a group: the item, its caption and the start of its list. */
  lemma GroupHeadText(prefix: string, ts: seq<Token>, name: string)
    requires prefix == Html(ts)
    ensures prefix + "<li role=\"treeitem\" aria-expanded=\"false\">" + "<span>" + name + "</span>"
      + "<ul role=\"group\">"
      == Html(ts + ([GroupOpen] + [CaptionOpen] + [Chars(name)] + [Close("span")] + [GroupListOpen]))
  {
    CloseTexts();
    EmitFive(prefix, ts, GroupOpen, CaptionOpen, Chars(name), Close("span"), GroupListOpen);
  }

  /** The closing part of a group: the subdirectory's markup and the two closing tags. */
  lemma GroupTailText(prefix: string, ts: seq<Token>, head: seq<Token>, items: seq<Item>)
    requires prefix == Html(ts + head)
    ensures prefix + Html(Tokens(items)) + "</ul>" + "</li>"
      == Html(ts + (head + Tokens(items) + [Close("ul")] + [Close("li")]))
  {
    CloseTexts();
    var h, t, p := prefix, ts + head, head;
    h := h + Html(Tokens(items));
    HtmlAppend(t, Tokens(items)); AppendAssoc(ts, p, Tokens(items)); t, p := t + Tokens(items), p + Tokens(items);
    assert h == Html(t) && t == ts + p;
    h := h + "</ul>";
    Emit(t, Close("ul")); AppendAssoc(ts, p, [Close("ul")]); t, p := t + [Close("ul")], p + [Close("ul")];
    assert h == Html(t) && t == ts + p;
    h := h + "</li>";
    Emit(t, Close("li")); AppendAssoc(ts, p, [Close("li")]); t, p := t + [Close("li")], p + [Close("li")];
    assert h == Html(t) && t == ts + p;
  }

  /** The text the renderer appends for a file, after `prefix`, is its leaf's tokens' text. */
  lemma DocText(prefix: string, ts: seq<Token>, link: string, caption: string)
    requires prefix == Html(ts)
    ensures prefix + "<li role=\"treeitem\" class=\"doc\">" + "<a href=\"sia://" + link + "\">" + caption + "</a>"
      + "</li>" == Html(ts + ItemTokens(Doc(link, caption)))
  {
    CloseTexts();
    var h := prefix + "<li role=\"treeitem\" class=\"doc\">";
    AppendAssoc(h, "<a href=\"sia://" + link, "\">");
    AppendAssoc(h, "<a href=\"sia://", link);
    EmitFive(prefix, ts, DocOpen, AnchorOpen(link), Chars(caption), Close("a"), Close("li"));
  }

  /** One more kept entry of the listing appends that entry's item to the outline. */
  lemma OutlineStep(dir: string, kept: seq<Entry>, i: nat, skip: Entry -> bool, skylinks: map<string, string>)
    requires i < |kept| && skip(kept[i])
    ensures Tokens(Outline(dir, kept[..i + 1], skip, skylinks)) ==
      Tokens(Outline(dir, kept[..i], skip, skylinks)) + ItemTokens(OutlineEntry(dir, kept[i], skip, skylinks)[0])
  {
    var c := kept[i];
    assert kept[..i + 1] == kept[..i] + [c];
    OutlineAppend(dir, kept[..i], [c], skip, skylinks);
    var items := OutlineEntry(dir, c, skip, skylinks);
    assert Outline(dir, [c], skip, skylinks) == items + Outline(dir, [], skip, skylinks);
    assert items + [] == items;
    TokensAppend(Outline(dir, kept[..i], skip, skylinks), items);
    assert |items| == 1 && items[1..] == [];
    assert Tokens(items) == ItemTokens(items[0]) + Tokens([]);
    assert ItemTokens(items[0]) + [] == ItemTokens(items[0]);
  }

  /** Appending the text of one more kept entry's item extends the rendered prefix by that entry. */
  lemma RenderStep(dir: string, kept: seq<Entry>, i: nat, skip: Entry -> bool, skylinks: map<string, string>, out: string)
    requires i < |kept| && skip(kept[i])
    requires out == Html(Tokens(Outline(dir, kept[..i], skip, skylinks)) + ItemTokens(OutlineEntry(dir, kept[i], skip, skylinks)[0]))
    ensures out == Html(Tokens(Outline(dir, kept[..i + 1], skip, skylinks)))
  {
    OutlineStep(dir, kept, i, skip, skylinks);
  }

  /**
   * recBuildDirHTML: filter the listing, then append a group around each
   * subdirectory's recursive markup or a leaf for each file. The string it
   * builds is the text of the rendered items.
   */
  method RecBuildDirHTML(dir: string, contents: seq<Entry>, skip: Entry -> bool, skylinks: map<string, string>)
    returns (html: string)
    ensures html == Html(Tokens(Outline(dir, contents, skip, skylinks)))
    decreases contents
  {
    html := "";
    var kept := Kept(contents, skip);
    for i := 0 to |kept|
      invariant html == Html(Tokens(Outline(dir, kept[..i], skip, skylinks)))
    {
      var c := kept[i];
      KeptAt(contents, skip, i);
      html := AppendEntry(html, Tokens(Outline(dir, kept[..i], skip, skylinks)), dir, c, skip, skylinks);
      RenderStep(dir, kept, i, skip, skylinks, html);
    }
    assert kept[..|kept|] == kept;
    OutlineKept(dir, contents, skip, skylinks);
  }

  /**
   * One pass of recBuildDirHTML's loop: append a group around a
   * subdirectory's recursive markup, or a leaf for a file. What it appends
   * is the text of the entry's item.
   */
  method AppendEntry(html: string, ghost done: seq<Token>, dir: string, c: Entry, skip: Entry -> bool, skylinks: map<string, string>)
    returns (out: string)
    requires html == Html(done) && skip(c)
    ensures out == Html(done + ItemTokens(OutlineEntry(dir, c, skip, skylinks)[0]))
    decreases c
  {
    var fullpath := Join(dir, c.name);
    out := html;
    if c.Dir? {
      out := out + "<li role=\"treeitem\" aria-expanded=\"false\">";
      out := out + "<span>" + c.name + "</span>";
      out := out + "<ul role=\"group\">";
      var sub := RecBuildDirHTML(fullpath, c.children, skip, skylinks);
      out := out + sub;
      out := out + "</ul>";
      out := out + "</li>";
      GroupText(html, done, c.name, Outline(fullpath, c.children, skip, skylinks));
    } else {
      var link := Lookup(skylinks, fullpath);
      out := out + "<li role=\"treeitem\" class=\"doc\">";
      out := out + "<a href=\"sia://" + link + "\">" + BaseName(fullpath) + "</a>";
      out := out + "</li>";
      DocText(html, done, link, BaseName(fullpath));
    }
  }
}
