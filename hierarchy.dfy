/**
 * The directory snapshot tree: building it from a directory listing,
 * pruning it with ignore and focus patterns, and printing it as an
 * indented outline.
 *
 * In `hierarchy.py` a file is a bare string and a folder is a one-key
 * dictionary `{name: children}`; here both are constructors of
 * `Node`. Each operation builds its result in a loop that appends to an
 * accumulator and recurses into folders; each method below does the same
 * and is proved equal to a recursive specification function, about which
 * the lemmas state the properties the program promises.
 */
module Hierarchy {
  import opened Text

  /** One entry of the snapshot tree. After filtering, `File.name` holds the
      path relative to the walk root instead of the bare file name. */
  datatype Node = File(name: string) | Folder(name: string, children: seq<Node>)

  /** One entry of a directory listing, as the file system reports it:
      a regular file, a directory with its own listing, or anything that is
      neither (a broken link, a socket, a device). */
  datatype Entry =
    | RegularFile(name: string)
    | Directory(name: string, listing: seq<Entry>)
    | OtherEntry(name: string)

  // ---------------------------------------------------------------------
  // os.path, POSIX, relative components
  // ---------------------------------------------------------------------

  /** `os.path.join(base, name)` for a relative `name`: no separator is
      added after an empty base. */
  function Join(base: string, name: string): (p: string)
    ensures base == "" ==> p == name
    ensures |base| > 0 ==> |p| == |base| + 1 + |name| && p[..|base|] == base && p[|base|] == '/'
    ensures |p| >= |name| && p[|p| - |name|..] == name
  {
    if base == "" then name else base + "/" + name
  }

  /** `os.path.basename(path)`: the part after the last `/`. */
  function Basename(path: string): (b: string)
    ensures '/' !in b
    ensures |b| <= |path| && path[|path| - |b|..] == b
    ensures |b| < |path| ==> path[|path| - |b| - 1] == '/'
    ensures '/' !in path ==> b == path
    ensures forall c :: c in b ==> c in path
    decreases |path|
  {
    if |path| == 0 then ""
    else if path[|path| - 1] == '/' then ""
    else
      var init := path[..|path| - 1];
      var b := Basename(init) + [path[|path| - 1]];
      assert path == init + [path[|path| - 1]];
      assert path[|path| - |b|..] == init[|init| - |b| + 1..] + [path[|path| - 1]];
      b
  }

  /** Joining a base in front does not change the base name: the base name
      of `join(base, name)` is the base name of `name`, and so is `name`
      itself when `name` is a single component. */
  lemma {:induction false} BasenameOfJoin(base: string, name: string)
    ensures Basename(Join(base, name)) == Basename(name)
    decreases |name|
  {
    if base != "" && name != "" && name[|name| - 1] != '/' {
      var init, c := name[..|name| - 1], name[|name| - 1];
      assert Join(base, name) == Join(base, init) + [c];
      assert name == init + [c];
      BasenameOfJoin(base, init);
      BasenameSnoc(Join(base, init), c);
      BasenameSnoc(init, c);
    }
  }

  /** A character other than `/` appended to a path extends its base name. */
  lemma BasenameSnoc(path: string, c: char)
    requires c != '/'
    ensures Basename(path + [c]) == Basename(path) + [c]
  {
    assert (path + [c])[..|path|] == path;
  }

  // ---------------------------------------------------------------------
  // build_hierarchy
  // ---------------------------------------------------------------------

  /** The tree built from one listing entry: a leaf for a regular file, a
      folder for a directory, nothing for any other kind of entry. */
  function BuiltEntry(e: Entry): seq<Node>
    decreases e
  {
    match e
    case RegularFile(name) => [File(name)]
    case Directory(name, listing) => [Folder(name, Built(listing))]
    case OtherEntry(_) => []
  }

  /** The tree built from a listing, in listing order. */
  function Built(listing: seq<Entry>): seq<Node>
    decreases listing
  {
    if |listing| == 0 then [] else Built(listing[..|listing| - 1]) + BuiltEntry(listing[|listing| - 1])
  }

  /** Walks a directory and mirrors it as a tree. */
  method BuildHierarchy(listing: seq<Entry>) returns (hierarchy: seq<Node>)
    ensures hierarchy == Built(listing)
    decreases listing
  {
    hierarchy := [];
    for i := 0 to |listing|
      invariant hierarchy == Built(listing[..i])
    {
      var item := listing[i];
      assert listing[..i + 1][..i] == listing[..i];
      match item {
        case RegularFile(name) =>
          hierarchy := hierarchy + [File(name)];
        case Directory(name, sub) =>
          assert item in listing;
          var children := BuildHierarchy(sub);
          hierarchy := hierarchy + [Folder(name, children)];
        case OtherEntry(_) =>
      }
    }
    assert listing[..|listing|] == listing;
  }

  /** The listing a tree was built from, with nothing but files and
      directories in it. */
  function Unbuilt(h: seq<Node>): (listing: seq<Entry>)
    decreases h
  {
    if |h| == 0 then []
    else
      var last := h[|h| - 1];
      Unbuilt(h[..|h| - 1]) + [match last
                              case File(name) => RegularFile(name)
                              case Folder(name, children) => Directory(name, Unbuilt(children))]
  }

  /** A listing with every entry that is neither a file nor a directory
      removed, at every depth. */
  function Pruned(listing: seq<Entry>): seq<Entry>
    decreases listing
  {
    if |listing| == 0 then []
    else
      var last := listing[|listing| - 1];
      Pruned(listing[..|listing| - 1]) + match last
                                        case RegularFile(_) => [last]
                                        case Directory(name, sub) => [Directory(name, Pruned(sub))]
                                        case OtherEntry(_) => []
  }

  lemma {:induction false} UnbuiltAppend(h: seq<Node>, n: Node)
    ensures Unbuilt(h + [n]) == Unbuilt(h) + Unbuilt([n])
  {
    assert (h + [n])[..|h|] == h;
    assert [n][..0] == [];
  }

  /** Building keeps exactly the files and directories of the listing, in
      listing order, files as bare-name leaves and directories as folders
      holding the tree built from their own listing. */
  lemma {:induction false} BuildMirrorsListing(listing: seq<Entry>)
    ensures Unbuilt(Built(listing)) == Pruned(listing)
    decreases listing
  {
    if |listing| > 0 {
      var init, last := listing[..|listing| - 1], listing[|listing| - 1];
      BuildMirrorsListing(init);
      match last {
        case RegularFile(name) =>
          UnbuiltAppend(Built(init), File(name));
        case Directory(name, sub) =>
          BuildMirrorsListing(sub);
          UnbuiltAppend(Built(init), Folder(name, Built(sub)));
        case OtherEntry(_) =>
          assert Built(listing) == Built(init);
      }
    }
  }

  /** Every tree is what building its own listing gives back, so `Unbuilt`
      loses nothing and `BuildMirrorsListing` pins down `Built` exactly. */
  lemma {:induction false} BuildOfUnbuilt(h: seq<Node>)
    ensures Built(Unbuilt(h)) == h
    decreases h
  {
    if |h| > 0 {
      var init, last := h[..|h| - 1], h[|h| - 1];
      var listing := Unbuilt(h);
      BuildOfUnbuilt(init);
      assert listing[..|listing| - 1] == Unbuilt(init);
      match last {
        case File(_) =>
        case Folder(name, children) =>
          BuildOfUnbuilt(children);
      }
      assert h == init + [last];
    }
  }

  // ---------------------------------------------------------------------
  // filter_hierarchy
  // ---------------------------------------------------------------------

  /** A name survives when it contains no ignore pattern and, if any focus
      patterns are given, contains at least one of them. Files and folders
      are tested alike, on their own name. */
  predicate Selected(name: string, ignore: seq<string>, focus: seq<string>)
  {
    !AnyContains(name, ignore) && (|focus| == 0 || AnyContains(name, focus))
  }

  /** What a surviving node becomes: a file leaf is rewritten to its path
      below `base`; a folder keeps its name and its children are filtered
      with the same ignore patterns, NO focus patterns, and the folder's
      path as their base. */
  function Requalified(n: Node, ignore: seq<string>, base: string): Node
    decreases n, 1
  {
    match n
    case File(name) => File(Join(base, name))
    case Folder(name, children) => Folder(name, Filter(children, ignore, [], Join(base, name)))
  }

  /** The contribution of one node: the requalified node if it survives,
      nothing otherwise (a dropped folder takes its whole subtree along). */
  function FilterNode(n: Node, ignore: seq<string>, focus: seq<string>, base: string): seq<Node>
    decreases n, 2
  {
    if Selected(n.name, ignore, focus) then [Requalified(n, ignore, base)] else []
  }

  /** The filtered hierarchy, node by node in input order. */
  function Filter(h: seq<Node>, ignore: seq<string>, focus: seq<string>, base: string): seq<Node>
    decreases h, 0
  {
    if |h| == 0 then []
    else Filter(h[..|h| - 1], ignore, focus, base) + FilterNode(h[|h| - 1], ignore, focus, base)
  }

  /** Prunes a hierarchy by ignore and focus patterns and qualifies the
      surviving file leaves with their path from the root. */
  method FilterHierarchy(hierarchy: seq<Node>, ignore: seq<string>, focus: seq<string>, base: string)
    returns (filtered: seq<Node>)
    ensures |hierarchy| == 0 ==> filtered == []
    ensures filtered == Filter(hierarchy, ignore, focus, base)
    decreases hierarchy
  {
    filtered := [];
    if |hierarchy| == 0 {
      return;
    }
    for i := 0 to |hierarchy|
      invariant filtered == Filter(hierarchy[..i], ignore, focus, base)
    {
      var item := hierarchy[i];
      assert hierarchy[..i + 1][..i] == hierarchy[..i];
      assert Filter(hierarchy[..i + 1], ignore, focus, base) == filtered + FilterNode(item, ignore, focus, base);
      match item {
        case File(name) =>
          var fullPath := Join(base, name);
          if !AnyContains(name, ignore) {
            if |focus| == 0 || AnyContains(name, focus) {
              filtered := filtered + [File(fullPath)];
            }
          }
        case Folder(key, children) =>
          if !AnyContains(key, ignore) {
            if |focus| == 0 || AnyContains(key, focus) {
              assert item in hierarchy;
              var sub := FilterHierarchy(children, ignore, [], Join(base, key));
              filtered := filtered + [Folder(key, sub)];
            }
          }
      }
    }
    assert hierarchy[..|hierarchy|] == hierarchy;
  }

  /** The positions of the input nodes that survive, in increasing order. */
  function Survivors(h: seq<Node>, ignore: seq<string>, focus: seq<string>): seq<nat>
  {
    if |h| == 0 then []
    else Survivors(h[..|h| - 1], ignore, focus)
         + (if Selected(h[|h| - 1].name, ignore, focus) then [|h| - 1] else [])
  }

  /** The surviving positions are valid, strictly increasing, and a
      position survives exactly when its node's own name passes the
      patterns. */
  lemma {:induction false} SurvivorsInOrder(h: seq<Node>, ignore: seq<string>, focus: seq<string>)
    ensures |Survivors(h, ignore, focus)| <= |h|
    ensures forall k :: 0 <= k < |Survivors(h, ignore, focus)| ==> Survivors(h, ignore, focus)[k] < |h|
    ensures forall k, l :: 0 <= k < l < |Survivors(h, ignore, focus)| ==>
              Survivors(h, ignore, focus)[k] < Survivors(h, ignore, focus)[l]
    ensures forall i :: 0 <= i < |h| ==> (i in Survivors(h, ignore, focus) <==> Selected(h[i].name, ignore, focus))
  {
    if |h| > 0 {
      var init := h[..|h| - 1];
      SurvivorsInOrder(init, ignore, focus);
      assert forall i :: 0 <= i < |init| ==> h[i] == init[i];
    }
  }

  /** Filtering keeps an order-preserving subsequence of the input: the
      k-th output node is the requalified node at the k-th surviving
      position, so each input node gives at most one output node. */
  lemma {:induction false} FilterIsSubsequence(h: seq<Node>, ignore: seq<string>, focus: seq<string>, base: string)
    ensures |Filter(h, ignore, focus, base)| == |Survivors(h, ignore, focus)|
    ensures forall k :: 0 <= k < |Survivors(h, ignore, focus)| ==>
              Survivors(h, ignore, focus)[k] < |h| &&
              Filter(h, ignore, focus, base)[k] == Requalified(h[Survivors(h, ignore, focus)[k]], ignore, base)
  {
    if |h| > 0 {
      var init := h[..|h| - 1];
      FilterIsSubsequence(init, ignore, focus, base);
      SurvivorsInOrder(init, ignore, focus);
      assert forall i :: 0 <= i < |init| ==> h[i] == init[i];
    }
  }

  /** Every name in the tree, at every depth, is a single path component,
      as names read from a directory listing are. */
  predicate PlainNames(h: seq<Node>)
    decreases h
  {
    forall i :: 0 <= i < |h| ==>
      '/' !in h[i].name && (h[i].Folder? ==> PlainNames(h[i].children))
  }

  /** The name a node is known by: a folder's name, a file leaf's base name. */
  function Label(n: Node): string
  {
    match n
    case File(path) => Basename(path)
    case Folder(name, _) => name
  }

  /** No node at any depth has a label containing an ignore pattern. */
  predicate NoneIgnored(h: seq<Node>, ignore: seq<string>)
    decreases h
  {
    forall i :: 0 <= i < |h| ==>
      !AnyContains(Label(h[i]), ignore) && (h[i].Folder? ==> NoneIgnored(h[i].children, ignore))
  }

  lemma NoneIgnoredConcat(a: seq<Node>, b: seq<Node>, ignore: seq<string>)
    requires NoneIgnored(a, ignore) && NoneIgnored(b, ignore)
    ensures NoneIgnored(a + b, ignore)
  {
    var r := a + b;
    forall i | 0 <= i < |r|
      ensures !AnyContains(Label(r[i]), ignore) && (r[i].Folder? ==> NoneIgnored(r[i].children, ignore))
    {
      if i < |a| {
        assert r[i] == a[i];
      } else {
        assert r[i] == b[i - |a|];
      }
    }
  }

  lemma SplitLast<T>(s: seq<T>)
    requires |s| > 0
    ensures s == s[..|s| - 1] + [s[|s| - 1]]
  {
  }

  lemma PlainNamesInit(h: seq<Node>)
    requires |h| > 0 && PlainNames(h)
    ensures PlainNames(h[..|h| - 1])
  {
    assert forall i :: 0 <= i < |h| - 1 ==> h[..|h| - 1][i] == h[i];
  }

  /** Ignore patterns apply at every depth: after filtering, no file and no
      folder anywhere in the tree has a name containing one of them. */
  lemma {:induction false} IgnoredNeverSurvive(h: seq<Node>, ignore: seq<string>, focus: seq<string>, base: string)
    requires PlainNames(h)
    ensures NoneIgnored(Filter(h, ignore, focus, base), ignore)
    decreases h
  {
    if |h| > 0 {
      var init, last := h[..|h| - 1], h[|h| - 1];
      PlainNamesInit(h);
      IgnoredNeverSurvive(init, ignore, focus, base);
      var tail := FilterNode(last, ignore, focus, base);
      if Selected(last.name, ignore, focus) {
        var kept := Requalified(last, ignore, base);
        assert tail == [kept];
        match last {
          case File(name) =>
            assert '/' !in name;
            BasenameOfJoin(base, name);
            assert Basename(name) == name;
            assert Label(kept) == name;
          case Folder(name, children) =>
            IgnoredNeverSurvive(children, ignore, [], Join(base, name));
            assert kept.children == Filter(children, ignore, [], Join(base, name));
        }
        assert NoneIgnored([kept], ignore);
      } else {
        assert tail == [];
      }
      assert Filter(h, ignore, focus, base) == Filter(init, ignore, focus, base) + tail;
      NoneIgnoredConcat(Filter(init, ignore, focus, base), tail, ignore);
    }
  }

  /** The reference for filtering with no patterns at all: the same tree,
      each file leaf replaced by its path below `base`. */
  function Qualified(h: seq<Node>, base: string): (r: seq<Node>)
    ensures |r| == |h|
    decreases h, 0
  {
    if |h| == 0 then []
    else Qualified(h[..|h| - 1], base) + [QualifiedNode(h[|h| - 1], base)]
  }

  function QualifiedNode(n: Node, base: string): Node
    decreases n, 1
  {
    match n
    case File(name) => File(Join(base, name))
    case Folder(name, children) => Folder(name, Qualified(children, Join(base, name)))
  }

  /** With both pattern lists empty every node survives and the output has
      the input's shape, file leaves qualified by their path from the root. */
  lemma {:induction false} FilterWithoutPatterns(h: seq<Node>, base: string)
    ensures Filter(h, [], [], base) == Qualified(h, base)
    decreases h
  {
    if |h| > 0 {
      var last := h[|h| - 1];
      FilterWithoutPatterns(h[..|h| - 1], base);
      assert Selected(last.name, [], []);
      match last {
        case File(_) =>
        case Folder(name, children) =>
          FilterWithoutPatterns(children, Join(base, name));
      }
      assert FilterNode(last, [], [], base) == [QualifiedNode(last, base)];
    }
  }

  /** A tree with every file leaf cut back to its base name. */
  function Stripped(h: seq<Node>): seq<Node>
    decreases h
  {
    if |h| == 0 then []
    else
      var last := h[|h| - 1];
      Stripped(h[..|h| - 1]) + [match last
                               case File(path) => File(Basename(path))
                               case Folder(name, children) => Folder(name, Stripped(children))]
  }

  /** Qualification only prefixes file leaves: cutting each leaf back to its
      base name restores the original tree. */
  lemma {:induction false} StrippedQualified(h: seq<Node>, base: string)
    requires PlainNames(h)
    ensures |Qualified(h, base)| == |h|
    ensures Stripped(Qualified(h, base)) == h
    decreases h
  {
    if |h| > 0 {
      var init, last := h[..|h| - 1], h[|h| - 1];
      PlainNamesInit(h);
      StrippedQualified(init, base);
      var q, qi, qn := Qualified(h, base), Qualified(init, base), QualifiedNode(last, base);
      assert q == qi + [qn];
      assert q[..|q| - 1] == qi && q[|q| - 1] == qn;
      assert '/' !in last.name;
      match last {
        case File(name) =>
          BasenameOfJoin(base, name);
          assert qn == File(Join(base, name));
        case Folder(name, children) =>
          StrippedQualified(children, Join(base, name));
          assert qn == Folder(name, Qualified(children, Join(base, name)));
      }
      assert Stripped(q) == Stripped(qi) + [last];
      SplitLast(h);
    }
  }

  // ---------------------------------------------------------------------
  // print_hierarchy
  // ---------------------------------------------------------------------

  function Spaces(n: nat): (s: string)
    ensures |s| == n && forall i :: 0 <= i < n ==> s[i] == ' '
  {
    seq(n, _ => ' ')
  }

  /** The outline of one node: a file prints as `- ` and its base name, a
      folder as `+ `, its name and `/`, followed by its children two
      columns further in. */
  function RenderNode(n: Node, indent: nat): string
    decreases n, 1
  {
    match n
    case File(path) => Spaces(indent) + "- " + Basename(path) + "\n"
    case Folder(name, children) => Spaces(indent) + "+ " + name + "/\n" + Render(children, indent + 2)
  }

  /** The outline of a hierarchy, node by node in order. */
  function Render(h: seq<Node>, indent: nat): string
    decreases h, 0
  {
    if |h| == 0 then "" else Render(h[..|h| - 1], indent) + RenderNode(h[|h| - 1], indent)
  }

  /** Renders a hierarchy as an indented outline. */
  method PrintHierarchy(hierarchy: seq<Node>, indent: nat) returns (output: string)
    ensures output == Render(hierarchy, indent)
    decreases hierarchy
  {
    output := "";
    for i := 0 to |hierarchy|
      invariant output == Render(hierarchy[..i], indent)
    {
      var item := hierarchy[i];
      assert hierarchy[..i + 1][..i] == hierarchy[..i];
      ghost var before := output;
      match item {
        case File(path) =>
          var fileName := Basename(path);
          var line := Spaces(indent) + "- " + fileName + "\n";
          output := output + line;
        case Folder(folderName, children) =>
          var line := Spaces(indent) + "+ " + folderName + "/\n";
          output := output + line;
          assert item in hierarchy;
          var nested := PrintHierarchy(children, indent + 2);
          output := output + nested;
          assert output == before + (line + nested);
      }
      assert output == before + RenderNode(item, indent);
    }
    assert hierarchy[..|hierarchy|] == hierarchy;
  }

  /** Number of nodes at every depth. */
  function NodeCount(h: seq<Node>): nat
    decreases h
  {
    if |h| == 0 then 0
    else
      var last := h[|h| - 1];
      NodeCount(h[..|h| - 1]) + 1 + (if last.Folder? then NodeCount(last.children) else 0)
  }

  /** Number of line breaks in a text. */
  function LineBreaks(s: string): nat
  {
    if |s| == 0 then 0 else LineBreaks(s[..|s| - 1]) + (if s[|s| - 1] == '\n' then 1 else 0)
  }

  lemma {:induction false} LineBreaksAppend(a: string, b: string)
    ensures LineBreaks(a + b) == LineBreaks(a) + LineBreaks(b)
    decreases |b|
  {
    if |b| > 0 {
      LineBreaksAppend(a, b[..|b| - 1]);
      assert (a + b)[..|a + b| - 1] == a + b[..|b| - 1];
      assert (a + b)[|a + b| - 1] == b[|b| - 1];
    } else {
      assert a + b == a;
    }
  }

  /** A text with no line break, followed by one, is a single line. */
  lemma SingleLine(s: string)
    requires '\n' !in s
    ensures LineBreaks(s + "\n") == 1
  {
    NoLineBreaks(s);
    assert (s + "\n")[..|s|] == s;
  }

  lemma {:induction false} NoLineBreaks(s: string)
    requires '\n' !in s
    ensures LineBreaks(s) == 0
    decreases |s|
  {
    if |s| > 0 {
      assert s[..|s| - 1] + [s[|s| - 1]] == s;
      NoLineBreaks(s[..|s| - 1]);
    }
  }

  /** No name at any depth contains a line break. */
  predicate SingleLineNames(h: seq<Node>)
    decreases h
  {
    forall i :: 0 <= i < |h| ==>
      '\n' !in h[i].name && (h[i].Folder? ==> SingleLineNames(h[i].children))
  }

  lemma SingleLineNamesInit(h: seq<Node>)
    requires |h| > 0 && SingleLineNames(h)
    ensures SingleLineNames(h[..|h| - 1])
  {
    assert forall i :: 0 <= i < |h| - 1 ==> h[..|h| - 1][i] == h[i];
  }

  /** The outline has exactly one line per node, at every depth, as long as
      no name itself contains a line break. */
  lemma {:induction false} OneLinePerNode(h: seq<Node>, indent: nat)
    requires SingleLineNames(h)
    ensures LineBreaks(Render(h, indent)) == NodeCount(h)
    decreases h, 0
  {
    if |h| > 0 {
      var init, last := h[..|h| - 1], h[|h| - 1];
      SingleLineNamesInit(h);
      OneLinePerNode(init, indent);
      LineBreaksAppend(Render(init, indent), RenderNode(last, indent));
      OneLineForNode(last, indent);
    }
  }

  lemma {:induction false} OneLineForNode(n: Node, indent: nat)
    requires '\n' !in n.name
    requires n.Folder? ==> SingleLineNames(n.children)
    ensures LineBreaks(RenderNode(n, indent)) == 1 + if n.Folder? then NodeCount(n.children) else 0
    decreases n, 1
  {
    var lead := Spaces(indent);
    assert '\n' !in lead;
    match n {
      case File(path) =>
        var b := Basename(path);
        SingleLine(lead + "- " + b);
        assert RenderNode(n, indent) == (lead + "- " + b) + "\n";
      case Folder(name, children) =>
        var text := lead + "+ " + name + "/";
        SingleLine(text);
        OneLinePerNode(children, indent + 2);
        LineBreaksAppend(text + "\n", Render(children, indent + 2));
        assert RenderNode(n, indent) == (text + "\n") + Render(children, indent + 2);
    }
  }

  /** Printing shows base names only, so the outline of a tree filtered with
      no patterns is the outline of the unfiltered tree. */
  lemma {:induction false} PrintIgnoresQualification(h: seq<Node>, base: string, indent: nat)
    ensures Render(Filter(h, [], [], base), indent) == Render(h, indent)
  {
    FilterWithoutPatterns(h, base);
    RenderQualified(h, base, indent);
  }

  lemma {:induction false} RenderQualified(h: seq<Node>, base: string, indent: nat)
    ensures Render(Qualified(h, base), indent) == Render(h, indent)
    decreases h
  {
    if |h| > 0 {
      var init, last := h[..|h| - 1], h[|h| - 1];
      RenderQualified(init, base, indent);
      var q := Qualified(h, base);
      assert q[..|q| - 1] == Qualified(init, base);
      match last {
        case File(name) =>
          BasenameOfJoin(base, name);
        case Folder(name, children) =>
          RenderQualified(children, Join(base, name), indent + 2);
      }
    }
  }

  // ---------------------------------------------------------------------
  // Worked examples
  // ---------------------------------------------------------------------

  /** Ignoring `secrets` removes that folder and everything in it, while
      the sibling file is kept under its path. */
  lemma IgnoreDropsSubtree()
    ensures Filter([Folder("src", [File("a.txt"), Folder("secrets", [File("b.env")])])], ["secrets"], [], "")
         == [Folder("src", [File("src/a.txt")])]
  {
    var ignore := ["secrets"];
    NotContainsLonger("src", "secrets");
    NotContainsLonger("a.txt", "secrets");
    assert Contains("secrets", ignore[0]);
    assert !AnyContains("src", ignore) && !AnyContains("a.txt", ignore) && AnyContains("secrets", ignore);
    var inner := [File("a.txt"), Folder("secrets", [File("b.env")])];
    assert inner[..1] == [File("a.txt")];
    assert Join("src", "a.txt") == "src/a.txt";
    assert [File("a.txt")][..0] == [];
    assert Filter([File("a.txt")], ignore, [], "src") == [File("src/a.txt")];
    assert FilterNode(inner[1], ignore, [], "src") == [];
    assert Filter(inner, ignore, [], "src") == [File("src/a.txt")];
    assert Join("", "src") == "src";
    assert FilterNode(Folder("src", inner), ignore, [], "") == [Folder("src", [File("src/a.txt")])];
  }

  /** Focus patterns are tested on top-level names only: `a.txt` does not
      contain `source` yet is kept inside the focused folder, while the
      top-level `a.md` is dropped. */
  lemma FocusOnlyAtTopLevel()
    ensures Filter([Folder("source", [File("a.txt")]), File("a.md")], [], ["source"], "")
         == [Folder("source", [File("source/a.txt")])]
  {
    var focus := ["source"];
    assert Contains("source", focus[0]);
    NotContainsLonger("a.md", "source");
    assert !AnyContains("a.md", focus);
    var h := [Folder("source", [File("a.txt")]), File("a.md")];
    assert h[..1] == [Folder("source", [File("a.txt")])];
    assert Join("source", "a.txt") == "source/a.txt";
    assert Selected("a.txt", [], []);
    assert [File("a.txt")][..0] == [];
    assert Filter([File("a.txt")], [], [], "source") == [File("source/a.txt")];
  }

  /** A folder holding one file prints as two lines: the folder, then the
      file's base name two columns further in. */
  lemma PrintFolderWithFile(folder: string, file: string, indent: nat)
    requires '/' !in file
    ensures Render([Folder(folder, [File(Join(folder, file))])], indent)
         == Spaces(indent) + "+ " + folder + "/\n" + (Spaces(indent + 2) + "- " + file + "\n")
  {
    var leaf := [File(Join(folder, file))];
    var top := [Folder(folder, leaf)];
    PrintFileLine(folder, file, indent + 2);
    assert Render(top, indent) == Render([], indent) + RenderNode(top[0], indent);
  }

  /** A file leaf prints as `- ` and the file's own name. */
  lemma PrintFileLine(base: string, file: string, indent: nat)
    requires '/' !in file
    ensures Render([File(Join(base, file))], indent) == Spaces(indent) + "- " + file + "\n"
  {
    var leaf := [File(Join(base, file))];
    BasenameOfJoin(base, file);
    assert Basename(file) == file;
    assert Render(leaf, indent) == Render([], indent) + RenderNode(leaf[0], indent);
  }
}
