/** The tree printer `format_tree`: a pre-order walk over an ordered key
    hierarchy that draws each key behind box-drawing connectors. */
module TreeFormat {
  import opened Text
  import opened Wrappers

  /** An ordered mapping from keys to sub-trees. A key whose value is not a
      mapping prints the same as one whose value is an empty mapping, so both
      are a `Tree` with no entries. */
  datatype Tree = Tree(entries: seq<Entry>)
  datatype Entry = Entry(key: string, sub: Tree)

  /** The four-character blocks a prefix is made of. */
  const Tee: string := "\U{251C}\U{2500}\U{2500} "     // "├── "
  const Corner: string := "\U{2514}\U{2500}\U{2500} "  // "└── "
  const Bar: string := "\U{2502}   "                     // "│   "
  const Blank: string := "    "

  /** Connector drawn before a key, and the fill under it on later lines. */
  function Connector(last: bool): string { if last then Corner else Tee }
  function Fill(last: bool): string { if last then Blank else Bar }

  /** The lines of one key: one output line per line of the key, in order,
      the first behind `first` and every later one behind `rest`. */
  function LabelLines(lines: seq<string>, first: string, rest: string): (r: seq<string>)
    ensures |r| == |lines|
    ensures forall n :: 0 <= n < |lines| ==> r[n] == (if n == 0 then first else rest) + lines[n]
  {
    if lines == [] then [] else [first + lines[0]] + LabelLines(lines[1..], rest, rest)
  }

  /** `_format(tree, prefix)` for the entries from index `i` on: the lines it
      appends to the shared list, in order. */
  function FormatFrom(t: Tree, i: nat, prefix: string): seq<string>
    requires i <= |t.entries| && |prefix| >= 4
    decreases t, |t.entries| - i, 1
  {
    if i == |t.entries| then [] else EntryLines(t, i, prefix) + FormatFrom(t, i + 1, prefix)
  }

  /** One pass of the loop in `_format`: the key's own lines behind the
      connector (later lines behind the matching fill), then the sub-tree
      with a prefix one block longer. */
  function EntryLines(t: Tree, i: nat, prefix: string): seq<string>
    requires i < |t.entries| && |prefix| >= 4
    decreases t, |t.entries| - i, 0
  {
    var e := t.entries[i];
    var head := prefix[..|prefix| - 4];
    var last := i == |t.entries| - 1 && |prefix| > 1;
    var myPrefix := head + (if last then Corner else Tee);
    var myMultilinePrefix := head + (if last then Blank else Bar);
    var subprefix :=
      if i < |t.entries| - 1 && |prefix| > 1 && prefix[|prefix| - 4..] == Blank
      then head + Bar else prefix;
    LabelLines(SplitLines(e.key), myPrefix, myMultilinePrefix) + FormatFrom(e.sub, 0, subprefix + Blank)
  }

  /** One step of the walk, with the prefixes named as the loop names them. */
  lemma EntryLinesParts(t: Tree, i: nat, prefix: string, myPrefix: string, myMultilinePrefix: string, subprefix: string)
    requires i < |t.entries| && |prefix| >= 4
    requires var last := i == |t.entries| - 1 && |prefix| > 1;
      myPrefix == prefix[..|prefix| - 4] + (if last then Corner else Tee)
      && myMultilinePrefix == prefix[..|prefix| - 4] + (if last then Blank else Bar)
    requires subprefix ==
      if i < |t.entries| - 1 && |prefix| > 1 && prefix[|prefix| - 4..] == Blank
      then prefix[..|prefix| - 4] + Bar else prefix
    ensures EntryLines(t, i, prefix)
      == LabelLines(SplitLines(t.entries[i].key), myPrefix, myMultilinePrefix)
         + FormatFrom(t.entries[i].sub, 0, subprefix + Blank)
  {
  }

  lemma AppendAssoc<T>(a: seq<T>, b: seq<T>, c: seq<T>)
    ensures a + b + c == a + (b + c)
  {
  }

  /** The list `format_tree` joins: the root line if given, then the walk. */
  function TreeLines(t: Tree, root: Option<string>): seq<string> {
    (if root.Some? then [root.value] else []) + FormatFrom(t, 0, Blank)
  }

  /** `format_tree(tree, root)`, written as the source writes it: a recursive
      helper that appends to one list inside a loop over the keys. */
  method FormatTree(t: Tree, root: Option<string>) returns (text: string)
    ensures text == Join(TreeLines(t, root), "\n")
  {
    var formattedTree: seq<string> := if root.Some? then [root.value] else [];
    formattedTree := FormatInto(t, Blank, formattedTree);
    text := Join(formattedTree, "\n");
  }

  /** The loop over `node.splitlines()` with its counter `n`: the first line
      goes behind `myPrefix`, every later one behind `myMultilinePrefix`. */
  method AppendLabelLines(acc: seq<string>, lines: seq<string>, myPrefix: string, myMultilinePrefix: string)
    returns (out: seq<string>)
    ensures out == acc + LabelLines(lines, myPrefix, myMultilinePrefix)
  {
    out := acc;
    var n := 0;
    while n < |lines|
      invariant 0 <= n <= |lines|
      invariant out == acc + LabelLines(lines[..n], myPrefix, myMultilinePrefix)
    {
      if n == 0 {
        out := out + [myPrefix + lines[n]];
      } else {
        out := out + [myMultilinePrefix + lines[n]];
      }
      n := n + 1;
      assert LabelLines(lines[..n], myPrefix, myMultilinePrefix)
          == LabelLines(lines[..n - 1], myPrefix, myMultilinePrefix) + [out[|out| - 1]];
    }
    assert lines[..n] == lines;
  }

  /** `_format(tree, prefix)`: appends the lines of `t` to `acc`. */
  method FormatInto(t: Tree, prefix: string, acc: seq<string>) returns (out: seq<string>)
    requires |prefix| >= 4
    ensures out == acc + FormatFrom(t, 0, prefix)
    decreases t
  {
    out := acc;
    var nodes := t.entries;
    var i := 0;
    while i < |nodes|
      invariant 0 <= i <= |nodes|
      invariant out + FormatFrom(t, i, prefix) == acc + FormatFrom(t, 0, prefix)
    {
      var node := nodes[i];
      var myPrefix, myMultilinePrefix;
      if i == |nodes| - 1 && |prefix| > 1 {
        myPrefix := prefix[..|prefix| - 4] + Corner;
        myMultilinePrefix := prefix[..|prefix| - 4] + Blank;
      } else {
        myPrefix := prefix[..|prefix| - 4] + Tee;
        myMultilinePrefix := prefix[..|prefix| - 4] + Bar;
      }
      var lines := SplitLines(node.key);
      ghost var before := out;
      out := AppendLabelLines(out, lines, myPrefix, myMultilinePrefix);
      var subprefix := prefix;
      if i < |nodes| - 1 && |prefix| > 1 && prefix[|prefix| - 4..] == Blank {
        subprefix := prefix[..|prefix| - 4] + Bar;
      }
      out := FormatInto(node.sub, subprefix + Blank, out);
      EntryLinesParts(t, i, prefix, myPrefix, myMultilinePrefix, subprefix);
      AppendAssoc(before, LabelLines(lines, myPrefix, myMultilinePrefix), FormatFrom(node.sub, 0, subprefix + Blank));
      assert out == before + EntryLines(t, i, prefix);
      AppendAssoc(before, EntryLines(t, i, prefix), FormatFrom(t, i + 1, prefix));
      i := i + 1;
    }
  }

  /* ---------------------------------------------------------------------
     A reference description of the output, stated from each key's place in
     the tree instead of from the prefix string the walk slices and extends.
     --------------------------------------------------------------------- */

  /** A key's place in the walk: for each ancestor, outermost first, whether
      it was the last of its siblings; whether the key itself is; its text. */
  datatype Position = Position(ancestors: seq<bool>, last: bool, key: string)

  /** The keys of `t` from index `i` on, in pre-order: a key, then all its
      descendants, then its later siblings, siblings in key order. */
  function PreOrder(t: Tree, ancestors: seq<bool>, i: nat): seq<Position>
    requires i <= |t.entries|
    decreases t, |t.entries| - i
  {
    if i == |t.entries| then []
    else
      var last := i == |t.entries| - 1;
      [Position(ancestors, last, t.entries[i].key)]
      + PreOrder(t.entries[i].sub, ancestors + [last], 0)
      + PreOrder(t, ancestors, i + 1)
  }

  /** The prefix in front of a key: one fill block per ancestor. */
  function Indent(ancestors: seq<bool>): string {
    if ancestors == [] then []
    else Indent(ancestors[..|ancestors| - 1]) + Fill(ancestors[|ancestors| - 1])
  }

  /** The lines one key prints, stated from its position alone. */
  function PositionLines(p: Position): seq<string> {
    LabelLines(SplitLines(p.key), Indent(p.ancestors) + Connector(p.last), Indent(p.ancestors) + Fill(p.last))
  }

  function LinesOf(ps: seq<Position>): seq<string> {
    if ps == [] then [] else PositionLines(ps[0]) + LinesOf(ps[1..])
  }

  /** Number of lines the keys' labels split into, summed. */
  function LabelLineCount(ps: seq<Position>): nat {
    if ps == [] then 0 else |SplitLines(ps[0].key)| + LabelLineCount(ps[1..])
  }

  lemma {:induction false} LinesOfAppend(a: seq<Position>, b: seq<Position>)
    ensures LinesOf(a + b) == LinesOf(a) + LinesOf(b)
    ensures LabelLineCount(a + b) == LabelLineCount(a) + LabelLineCount(b)
  {
    if a == [] {
      assert a + b == b;
    } else {
      assert (a + b)[0] == a[0] && (a + b)[1..] == a[1..] + b;
      LinesOfAppend(a[1..], b);
    }
  }

  lemma {:induction false} LinesOfCount(ps: seq<Position>)
    ensures |LinesOf(ps)| == LabelLineCount(ps)
  {
    if ps != [] {
      LinesOfCount(ps[1..]);
    }
  }

  /** The `d`-th four-character block of a prefix. */
  function Block(s: string, d: nat): string
    requires 4 * d + 4 <= |s|
  {
    s[4 * d..4 * d + 4]
  }

  /** A prefix is four characters per ancestor, and the block at depth `d`
      is the fill of the ancestor at that depth: `│   ` under a key with
      later siblings, blank under a last one. */
  lemma {:induction false} IndentShape(ancestors: seq<bool>)
    ensures |Indent(ancestors)| == 4 * |ancestors|
    ensures forall d :: 0 <= d < |ancestors| ==> Block(Indent(ancestors), d) == Fill(ancestors[d])
  {
    if ancestors != [] {
      var n := |ancestors| - 1;
      var init, b := ancestors[..n], ancestors[n];
      IndentShape(init);
      assert Indent(ancestors) == Indent(init) + Fill(b);
      forall d | 0 <= d < |ancestors|
        ensures Block(Indent(ancestors), d) == Fill(ancestors[d])
      {
        BlockOfAppend(Indent(init), Fill(b), n, d);
        if d < n {
          assert ancestors[d] == init[d];
        }
      }
    }
  }

  lemma BlockOfAppend(a: string, b: string, n: nat, d: nat)
    requires |a| == 4 * n && |b| == 4 && d <= n
    ensures d < n ==> Block(a + b, d) == Block(a, d)
    ensures d == n ==> Block(a + b, d) == b
  {
  }

  /** The walk as the source writes it, with its prefix string, produces
      exactly the lines of the keys in pre-order, each behind the prefix its
      position calls for. */
  lemma {:induction false} WalkIsPreOrder(t: Tree, ancestors: seq<bool>, i: nat)
    requires i <= |t.entries|
    ensures FormatFrom(t, i, Indent(ancestors) + Blank) == LinesOf(PreOrder(t, ancestors, i))
    decreases t, |t.entries| - i
  {
    if i < |t.entries| {
      var prefix := Indent(ancestors) + Blank;
      var last := i == |t.entries| - 1;
      var e := t.entries[i];
      var below := PreOrder(e.sub, ancestors + [last], 0);
      var later := PreOrder(t, ancestors, i + 1);
      var here := Position(ancestors, last, e.key);
      WalkIsPreOrder(e.sub, ancestors + [last], 0);
      WalkIsPreOrder(t, ancestors, i + 1);
      calc {
        FormatFrom(t, i, prefix);
        EntryLines(t, i, prefix) + FormatFrom(t, i + 1, prefix);
        { PrefixParts(ancestors, last);
          EntryLinesParts(t, i, prefix, Indent(ancestors) + Connector(last), Indent(ancestors) + Fill(last),
                          Indent(ancestors + [last])); }
        PositionLines(here) + FormatFrom(e.sub, 0, Indent(ancestors + [last]) + Blank) + FormatFrom(t, i + 1, prefix);
        PositionLines(here) + LinesOf(below) + LinesOf(later);
        { PreOrderLines(here, below, later); }
        LinesOf(PreOrder(t, ancestors, i));
      }
    }
  }

  /** The prefix handed to keys under `ancestors`, cut and extended as the
      walk does it. */
  lemma PrefixParts(ancestors: seq<bool>, last: bool)
    ensures var prefix := Indent(ancestors) + Blank;
      |prefix| >= 4 && prefix[..|prefix| - 4] == Indent(ancestors) && prefix[|prefix| - 4..] == Blank
      && Indent(ancestors + [last]) == if last then prefix else Indent(ancestors) + Bar
  {
    assert (ancestors + [last])[..|ancestors|] == ancestors;
  }

  lemma PreOrderLines(here: Position, below: seq<Position>, later: seq<Position>)
    ensures LinesOf([here] + below + later) == PositionLines(here) + LinesOf(below) + LinesOf(later)
  {
    LinesOfAppend([here] + below, later);
    LinesOfAppend([here], below);
    assert LinesOf([here]) == PositionLines(here) + LinesOf([]);
  }

  /** `format_tree`'s list: the root line first and verbatim when given,
      then every key's lines in pre-order. */
  lemma TreeLinesArePreOrder(t: Tree, root: Option<string>)
    ensures TreeLines(t, root) == (if root.Some? then [root.value] else []) + LinesOf(PreOrder(t, [], 0))
  {
    WalkIsPreOrder(t, [], 0);
  }

  /** Line count: one for the root when given, plus for each key the number
      of lines its label splits into. */
  lemma TreeLineCount(t: Tree, root: Option<string>)
    ensures |TreeLines(t, root)| == (if root.Some? then 1 else 0) + LabelLineCount(PreOrder(t, [], 0))
  {
    TreeLinesArePreOrder(t, root);
    LinesOfCount(PreOrder(t, [], 0));
  }

  /** The printed tree splits back into exactly its lines: every line the
      walk produces is non-empty and free of line boundaries, so when the
      root line is too, splitting the text `format_tree` returns gives one
      line per entry of the list it joined. */
  lemma TreeTextSplits(t: Tree, root: Option<string>)
    requires root.Some? ==> root.value != [] && NoBoundary(root.value)
    ensures SplitLines(Join(TreeLines(t, root), "\n")) == TreeLines(t, root)
  {
    var walk := LinesOf(PreOrder(t, [], 0));
    TreeLinesArePreOrder(t, root);
    LinesOfClean(PreOrder(t, [], 0));
    var lines := TreeLines(t, root);
    forall k | 0 <= k < |lines|
      ensures lines[k] != [] && NoBoundary(lines[k])
    {
      if root.Some? && k > 0 {
        assert lines[k] == walk[k - 1];
      }
    }
    JoinThenSplit(lines);
  }

  /** Every line of the walk is a prefix of at least four box-drawing or
      blank characters followed by one line of a key. */
  lemma {:induction false} LinesOfClean(ps: seq<Position>)
    ensures forall k :: 0 <= k < |LinesOf(ps)| ==> LinesOf(ps)[k] != [] && NoBoundary(LinesOf(ps)[k])
  {
    if ps != [] {
      var p := ps[0];
      LinesOfClean(ps[1..]);
      var keyLines := SplitLines(p.key);
      var first, rest := Indent(p.ancestors) + Connector(p.last), Indent(p.ancestors) + Fill(p.last);
      IndentClean(p.ancestors);
      NoBoundaryAppend(Indent(p.ancestors), Connector(p.last));
      NoBoundaryAppend(Indent(p.ancestors), Fill(p.last));
      forall n | 0 <= n < |keyLines|
        ensures PositionLines(p)[n] != [] && NoBoundary(PositionLines(p)[n])
      {
        NoBoundaryAppend(if n == 0 then first else rest, keyLines[n]);
      }
    }
  }

  lemma {:induction false} IndentClean(ancestors: seq<bool>)
    ensures NoBoundary(Indent(ancestors))
  {
    if ancestors != [] {
      IndentClean(ancestors[..|ancestors| - 1]);
      NoBoundaryAppend(Indent(ancestors[..|ancestors| - 1]), Fill(ancestors[|ancestors| - 1]));
    }
  }

  lemma NoBoundaryAppend(a: string, b: string)
    requires NoBoundary(a) && NoBoundary(b)
    ensures NoBoundary(a + b)
  {
    forall j | 0 <= j < |a + b|
      ensures !IsLineBoundary((a + b)[j])
    {
      if j >= |a| {
        assert (a + b)[j] == b[j - |a|];
      }
    }
  }

  /** Descendants keep their ancestors' fills: every key listed under
      `ancestors` has them as the start of its own ancestor list. */
  lemma {:induction false} PreOrderKeepsAncestors(t: Tree, ancestors: seq<bool>, i: nat)
    requires i <= |t.entries|
    ensures forall p :: p in PreOrder(t, ancestors, i) ==> ancestors <= p.ancestors
    decreases t, |t.entries| - i
  {
    if i < |t.entries| {
      var last := i == |t.entries| - 1;
      PreOrderKeepsAncestors(t.entries[i].sub, ancestors + [last], 0);
      PreOrderKeepsAncestors(t, ancestors, i + 1);
    }
  }

  /** A key without line boundaries prints one line: its prefix, its
      connector and the key. */
  lemma OneLineKey(p: Position)
    requires p.key != [] && NoBoundary(p.key)
    ensures PositionLines(p) == [Indent(p.ancestors) + Connector(p.last) + p.key]
  {
    SingleLine(p.key);
  }

  /** The example from the source's documentation: `foo` with a plain value,
      then `bar` holding `xyz`. */
  lemma DocumentationExample()
    ensures TreeLines(Tree([Entry("foo", Tree([])), Entry("bar", Tree([Entry("xyz", Tree([]))]))]), None)
      == ["\U{251C}\U{2500}\U{2500} foo", "\U{2514}\U{2500}\U{2500} bar", "    \U{2514}\U{2500}\U{2500} xyz"]
  {
    var t := Tree([Entry("foo", Tree([])), Entry("bar", Tree([Entry("xyz", Tree([]))]))]);
    ExamplePreOrder();
    ExampleLines();
    TreeLinesArePreOrder(t, None);
  }

  lemma ExampleLines()
    ensures LinesOf([Position([], false, "foo"), Position([], true, "bar"), Position([true], true, "xyz")])
      == ["\U{251C}\U{2500}\U{2500} foo", "\U{2514}\U{2500}\U{2500} bar", "    \U{2514}\U{2500}\U{2500} xyz"]
  {
    ExampleFirstLevel();
    ExampleSecondLevel();
    LinesOfThree(Position([], false, "foo"), Position([], true, "bar"), Position([true], true, "xyz"));
  }

  lemma ExampleFirstLevel()
    ensures PositionLines(Position([], false, "foo")) == ["\U{251C}\U{2500}\U{2500} foo"]
    ensures PositionLines(Position([], true, "bar")) == ["\U{2514}\U{2500}\U{2500} bar"]
  {
    PlainKey("foo");
    PlainKey("bar");
    OneLineKey(Position([], false, "foo"));
    OneLineKey(Position([], true, "bar"));
    assert Indent([]) + Connector(false) + "foo" == Tee + "foo" == "\U{251C}\U{2500}\U{2500} foo";
    assert Indent([]) + Connector(true) + "bar" == Corner + "bar" == "\U{2514}\U{2500}\U{2500} bar";
  }

  lemma ExampleSecondLevel()
    ensures PositionLines(Position([true], true, "xyz")) == ["    \U{2514}\U{2500}\U{2500} xyz"]
  {
    PlainKey("xyz");
    assert Indent([true]) == Blank by { assert [true][..0] == []; }
    OneLineKey(Position([true], true, "xyz"));
    assert Blank + Corner + "xyz" == "    \U{2514}\U{2500}\U{2500} xyz";
  }

  /** A three-letter lower-case key holds no line boundary. */
  lemma PlainKey(k: string)
    requires |k| == 3 && forall j :: 0 <= j < 3 ==> 'a' <= k[j] <= 'z'
    ensures k != [] && NoBoundary(k)
  {
  }

  lemma LinesOfThree(a: Position, b: Position, c: Position)
    ensures LinesOf([a, b, c]) == PositionLines(a) + PositionLines(b) + PositionLines(c)
  {
    assert [a, b, c][1..] == [b, c] && [b, c][1..] == [c];
    assert LinesOf([c]) == PositionLines(c) + LinesOf([]);
  }

  lemma ExamplePreOrder()
    ensures PreOrder(Tree([Entry("foo", Tree([])), Entry("bar", Tree([Entry("xyz", Tree([]))]))]), [], 0)
      == [Position([], false, "foo"), Position([], true, "bar"), Position([true], true, "xyz")]
  {
    var xyz := Tree([Entry("xyz", Tree([]))]);
    var t := Tree([Entry("foo", Tree([])), Entry("bar", xyz)]);
    assert PreOrder(xyz, [true], 0) == [Position([true], true, "xyz")];
    assert PreOrder(Tree([]), [false], 0) == [];
    assert PreOrder(t, [], 2) == [];
    assert [] + [true] == [true];
    assert PreOrder(t, [], 1) == [Position([], true, "bar")] + PreOrder(xyz, [true], 0) + [];
  }
}
