/**
 * The NEWICK writer and the split renderer of DendroPy
 * (dendropy/dataio/newick.py): a rooted ordered tree is written as nested
 * parentheses with display tags and edge lengths, and a split bitmask is
 * written as the two groups of registry labels it separates.
 */
module Newick {
  import opened Wrappers
  import opened Bits
  import Taxa

  /** `texttools.escape_nexus_token(token, preserve_spaces, quote_underscores)`, supplied by the caller. */
  type Escaper = (string, bool, bool) -> string

  /** The `%0.10f` (leaf edge, first argument true) or `%f` (internal edge) rendering of an edge length. */
  type LengthFormatter = (bool, real) -> string

  /** A node of a rooted, ordered tree, as the writer reads it. */
  datatype Node = Node(
    taxonLabel: Option<string>,  // the label of the node's taxon; None when the node has no taxon
    name: Option<string>,        // the node's own `label`
    oid: string,
    edgeLength: Option<real>,    // None when the edge has no length
    children: seq<Node>)

  datatype Tree = Tree(seedNode: Node)

  /** The settings of a NewickWriter; `excludeTrees` is inherited from DataWriter. */
  datatype WriterConfig = WriterConfig(
    edgeLengths: bool,
    internalLabels: bool,
    preserveSpaces: bool,
    quoteUnderscores: bool,
    excludeTrees: bool)

  /** The keyword defaults of `NewickWriter.__init__`. */
  function DefaultWriterConfig(excludeTrees: bool): (cfg: WriterConfig)
    ensures cfg.edgeLengths && cfg.internalLabels      // lengths and internal labels are written
    ensures !cfg.preserveSpaces && cfg.quoteUnderscores
    ensures cfg.excludeTrees == excludeTrees
  {
    WriterConfig(true, true, false, true, excludeTrees)
  }

  /** `sep.join(items)`. */
  function Join(sep: string, items: seq<string>): string
  {
    if |items| == 0 then ""
    else if |items| == 1 then items[0]
    else items[0] + sep + Join(sep, items[1..])
  }

  /** A tag is escaped only when it is not empty. */
  function EscapeTag(tag: string, cfg: WriterConfig, escape: Escaper): string
  {
    if tag != "" then escape(tag, cfg.preserveSpaces, cfg.quoteUnderscores) else tag
  }

  // ---------------------------------------------------------------------------
  // Display tags

  /**
   * `choose_display_tag`: the taxon's label if the node has a taxon, else the
   * node's own label if it is non-empty, else the oid if the node is a leaf,
   * else "" -- escaped unless it is empty.
   */
  function ChooseDisplayTag(n: Node, cfg: WriterConfig, escape: Escaper): (r: string)
    ensures n.taxonLabel.Some? ==> r == EscapeTag(n.taxonLabel.value, cfg, escape)
    ensures n.taxonLabel.None? && n.name.Some? && n.name.value != "" ==> r == EscapeTag(n.name.value, cfg, escape)
    ensures n.taxonLabel.None? && (n.name.None? || n.name.value == "") && n.children == [] ==>
              r == EscapeTag(n.oid, cfg, escape)
    ensures n.taxonLabel.None? && (n.name.None? || n.name.value == "") && n.children != [] ==> r == ""
  {
    var tag :=
      if n.taxonLabel.Some? then n.taxonLabel.value
      else if n.name.Some? && n.name.value != "" then n.name.value
      else if |n.children| == 0 then n.oid
      else "";
    EscapeTag(tag, cfg, escape)
  }

  /** A node's taxon decides its tag: its own label, oid and children are not consulted. */
  lemma TaxonTagPrevails(n: Node, m: Node, cfg: WriterConfig, escape: Escaper)
    requires n.taxonLabel.Some? && n.taxonLabel == m.taxonLabel
    ensures ChooseDisplayTag(n, cfg, escape) == ChooseDisplayTag(m, cfg, escape)
  {
  }

  /** Without a taxon, a non-empty node label decides the tag, whatever the oid and children. */
  lemma NodeLabelPrevailsOverOid(n: Node, m: Node, cfg: WriterConfig, escape: Escaper)
    requires n.taxonLabel.None? && m.taxonLabel.None?
    requires n.name == m.name && n.name.Some? && n.name.value != ""
    ensures ChooseDisplayTag(n, cfg, escape) == ChooseDisplayTag(m, cfg, escape)
  {
  }

  /**
   * A leaf is tagged whenever its taxon (if any) has a non-empty label and
   * its oid is non-empty, provided the escaper keeps non-empty tokens
   * non-empty; a taxon with an empty label leaves even a leaf untagged.
   */
  lemma LeafTagged(n: Node, cfg: WriterConfig, escape: Escaper)
    requires n.children == [] && n.oid != ""
    requires forall s, a, b :: s != "" ==> escape(s, a, b) != ""
    ensures ChooseDisplayTag(n, cfg, escape) == "" <==> n.taxonLabel == Some("")
  {
  }

  // ---------------------------------------------------------------------------
  // Composing nodes, trees and tree lists

  /** `":" + length` when edge lengths are written and the edge has a length. */
  function EdgeSuffix(n: Node, cfg: WriterConfig, fmt: LengthFormatter): string
  {
    if cfg.edgeLengths && n.edgeLength.Some? then ":" + fmt(n.children == [], n.edgeLength.value) else ""
  }

  /**
   * `compose_node`: an internal node is `(c1,...,ck)` followed by its tag when
   * internal labels are written; a leaf is its tag; either is followed by
   * its edge suffix.
   */
  function ComposeNode(n: Node, cfg: WriterConfig, escape: Escaper, fmt: LengthFormatter): (r: string)
    decreases n, 1
  {
    if |n.children| > 0 then
      "(" + Join(",", Subnodes(n, cfg, escape, fmt)) + ")"
        + (if cfg.internalLabels then ChooseDisplayTag(n, cfg, escape) else "")
        + EdgeSuffix(n, cfg, fmt)
    else
      ChooseDisplayTag(n, cfg, escape) + EdgeSuffix(n, cfg, fmt)
  }

  /** `[self.compose_node(child) for child in child_nodes]`. */
  function Subnodes(n: Node, cfg: WriterConfig, escape: Escaper, fmt: LengthFormatter): (r: seq<string>)
    ensures |r| == |n.children|
    decreases n, 0
  {
    seq(|n.children|, i requires 0 <= i < |n.children| => ComposeNode(n.children[i], cfg, escape, fmt))
  }

  /** `compose_tree`: the seed node composed. */
  function ComposeTree(t: Tree, cfg: WriterConfig, escape: Escaper, fmt: LengthFormatter): string
  {
    ComposeNode(t.seedNode, cfg, escape, fmt)
  }

  /** The text `write_tree_list` sends to its stream: one `;\n`-terminated statement per tree. */
  function TreeListText(trees: seq<Tree>, cfg: WriterConfig, escape: Escaper, fmt: LengthFormatter): string
  {
    if cfg.excludeTrees || trees == [] then ""
    else ComposeTree(trees[0], cfg, escape, fmt) + ";\n" + TreeListText(trees[1..], cfg, escape, fmt)
  }

  /** `write_tree_list`, with the stream's accumulated output as the result. */
  method WriteTreeList(trees: seq<Tree>, cfg: WriterConfig, escape: Escaper, fmt: LengthFormatter) returns (out: string)
    ensures out == TreeListText(trees, cfg, escape, fmt)
  {
    out := "";
    if cfg.excludeTrees {
      return;
    }
    var i := 0;
    while i < |trees|
      invariant 0 <= i <= |trees|
      invariant out + TreeListText(trees[i..], cfg, escape, fmt) == TreeListText(trees, cfg, escape, fmt)
    {
      var statement := ComposeTree(trees[i], cfg, escape, fmt) + ";\n";
      TreeListTextStep(trees, i, cfg, escape, fmt);
      assert out + statement + TreeListText(trees[i + 1..], cfg, escape, fmt)
          == out + (statement + TreeListText(trees[i + 1..], cfg, escape, fmt));
      out := out + statement;
      i := i + 1;
    }
  }

  lemma TreeListTextStep(trees: seq<Tree>, i: nat, cfg: WriterConfig, escape: Escaper, fmt: LengthFormatter)
    requires i < |trees| && !cfg.excludeTrees
    ensures TreeListText(trees[i..], cfg, escape, fmt)
            == ComposeTree(trees[i], cfg, escape, fmt) + ";\n" + TreeListText(trees[i + 1..], cfg, escape, fmt)
  {
    assert trees[i..][1..] == trees[i + 1..];
  }

  // ---------------------------------------------------------------------------
  // What the composed text contains

  /** Occurrences of c in s. */
  function Count(c: char, s: string): nat
  {
    multiset(s)[c]
  }

  function SumNat(xs: seq<nat>): nat
  {
    if xs == [] then 0 else xs[0] + SumNat(xs[1..])
  }

  /** Occurrences of c in each of xs. */
  function Counts(c: char, xs: seq<string>): (r: seq<nat>)
    ensures |r| == |xs|
  {
    seq(|xs|, i requires 0 <= i < |xs| => Count(c, xs[i]))
  }

  /** Joining k pieces with a one-character separator adds k - 1 separators and nothing else. */
  lemma {:induction false} JoinCount(sep: char, xs: seq<string>, c: char)
    ensures Count(c, Join([sep], xs)) == SumNat(Counts(c, xs)) + (if |xs| > 0 && c == sep then |xs| - 1 else 0)
    decreases |xs|
  {
    if |xs| == 1 {
      assert Counts(c, xs)[1..] == [];
    } else if |xs| > 1 {
      JoinCount(sep, xs[1..], c);
      assert Counts(c, xs)[1..] == Counts(c, xs[1..]);
    }
  }

  lemma {:induction false} SumNatZero(xs: seq<nat>)
    requires forall i :: 0 <= i < |xs| ==> xs[i] == 0
    ensures SumNat(xs) == 0
  {
    if xs != [] {
      SumNatZero(xs[1..]);
    }
  }

  /** How often the writer itself emits c for node n: parentheses, separating commas, the colon of a length. */
  function OwnCount(n: Node, c: char, cfg: WriterConfig): nat
  {
    (if |n.children| > 0 && (c == '(' || c == ')') then 1 else 0)
    + (if |n.children| > 0 && c == ',' then |n.children| - 1 else 0)
    + (if c == ':' && cfg.edgeLengths && n.edgeLength.Some? then 1 else 0)
  }

  /** OwnCount summed over the whole subtree of n. */
  function PunctCount(n: Node, c: char, cfg: WriterConfig): nat
    decreases n
  {
    OwnCount(n, c, cfg)
    + SumNat(seq(|n.children|, i requires 0 <= i < |n.children| => PunctCount(n.children[i], c, cfg)))
  }

  /**
   * The escaper introduces no c of its own: `escape_nexus_token` only adds
   * quotes (and doubles them), so this holds for every punctuation mark the
   * writer emits.
   */
  ghost predicate EscapeAddsNo(escape: Escaper, c: char)
  {
    forall s, a, b :: c !in s ==> c !in escape(s, a, b)
  }

  /** Wrapping a token in single quotes, as `escape_nexus_token` does for a token holding punctuation. */
  function Quote(token: string, preserveSpaces: bool, quoteUnderscores: bool): string
  {
    "'" + token + "'"
  }

  /** Quoting adds no character but the quote itself. */
  lemma QuotingAddsNoPunctuation(c: char)
    requires c != '\''
    ensures EscapeAddsNo(Quote, c)
  {
    forall s: string, a: bool, b: bool | c !in s
      ensures c !in Quote(s, a, b)
    {
      assert forall x :: x in Quote(s, a, b) ==> x == '\'' || x in s;
    }
  }

  /** None of the strings a node's tag is drawn from -- taxon label, node label, oid -- holds c. */
  predicate NodeFreeOf(n: Node, c: char)
  {
    && (n.taxonLabel.Some? ==> c !in n.taxonLabel.value)
    && (n.name.Some? ==> c !in n.name.value)
    && c !in n.oid
  }

  /** NodeFreeOf for every node of the subtree of n. */
  predicate FreeOf(n: Node, c: char)
    decreases n
  {
    NodeFreeOf(n, c) && forall i :: 0 <= i < |n.children| ==> FreeOf(n.children[i], c)
  }

  lemma CountConcat(c: char, a: string, b: string)
    ensures Count(c, a + b) == Count(c, a) + Count(c, b)
  {
    assert multiset(a + b) == multiset(a) + multiset(b);
  }

  /** A display tag holds no c when the node's own strings hold none and the escaper adds none. */
  lemma TagCount(n: Node, c: char, cfg: WriterConfig, escape: Escaper)
    requires EscapeAddsNo(escape, c) && NodeFreeOf(n, c)
    ensures Count(c, ChooseDisplayTag(n, cfg, escape)) == 0
  {
    var tag := ChooseDisplayTag(n, cfg, escape);
    assert c !in tag;
  }

  /** An edge suffix holds one `:` and nothing the length formatter never produces. */
  lemma SuffixCount(n: Node, c: char, cfg: WriterConfig, fmt: LengthFormatter)
    requires cfg.edgeLengths ==> forall leaf, x :: c !in fmt(leaf, x)
    ensures Count(c, EdgeSuffix(n, cfg, fmt)) == if c == ':' && cfg.edgeLengths && n.edgeLength.Some? then 1 else 0
  {
    if cfg.edgeLengths && n.edgeLength.Some? {
      var v: real := n.edgeLength.value;
      var f := fmt(n.children == [], v);
      assert c !in f;
      CountConcat(c, ":", f);
    }
  }

  lemma WrappedCount(c: char, joined: string, own: string, suffix: string)
    ensures Count(c, "(" + joined + ")" + own + suffix)
            == (if c == '(' || c == ')' then 1 else 0) + Count(c, joined) + Count(c, own) + Count(c, suffix)
  {
    CountConcat(c, "(", joined);
    CountConcat(c, "(" + joined, ")");
    CountConcat(c, "(" + joined + ")", own);
    CountConcat(c, "(" + joined + ")" + own, suffix);
  }

  /** The characters c that node n's own text contributes: its tag and suffix add none. */
  lemma ComposeCountShape(n: Node, c: char, cfg: WriterConfig, escape: Escaper, fmt: LengthFormatter)
    requires EscapeAddsNo(escape, c) && NodeFreeOf(n, c)
    requires cfg.edgeLengths ==> forall leaf, x :: c !in fmt(leaf, x)
    ensures Count(c, ComposeNode(n, cfg, escape, fmt))
            == OwnCount(n, c, cfg) + (if |n.children| > 0 then SumNat(Counts(c, Subnodes(n, cfg, escape, fmt))) else 0)
  {
    var tag := ChooseDisplayTag(n, cfg, escape);
    TagCount(n, c, cfg, escape);
    var suffix := EdgeSuffix(n, cfg, fmt);
    SuffixCount(n, c, cfg, fmt);
    if |n.children| > 0 {
      var subnodes := Subnodes(n, cfg, escape, fmt);
      var joined := Join(",", subnodes);
      var own := if cfg.internalLabels then tag else "";
      assert ComposeNode(n, cfg, escape, fmt) == "(" + joined + ")" + own + suffix;
      WrappedCount(c, joined, own, suffix);
      assert [','] == ",";
      JoinCount(',', subnodes, c);
    } else {
      assert ComposeNode(n, cfg, escape, fmt) == tag + suffix;
      CountConcat(c, tag, suffix);
    }
  }

  lemma ChildSumsAgree(n: Node, c: char, cfg: WriterConfig, escape: Escaper, fmt: LengthFormatter)
    requires forall i :: 0 <= i < |n.children| ==>
               Count(c, ComposeNode(n.children[i], cfg, escape, fmt)) == PunctCount(n.children[i], c, cfg)
    ensures SumNat(Counts(c, Subnodes(n, cfg, escape, fmt))) + OwnCount(n, c, cfg) == PunctCount(n, c, cfg)
  {
    var sums := seq(|n.children|, i requires 0 <= i < |n.children| => PunctCount(n.children[i], c, cfg));
    assert Counts(c, Subnodes(n, cfg, escape, fmt)) == sums;
  }

  lemma LeafPunctCount(n: Node, c: char, cfg: WriterConfig)
    requires n.children == []
    ensures PunctCount(n, c, cfg) == OwnCount(n, c, cfg)
  {
    var sums := seq(|n.children|, i requires 0 <= i < |n.children| => PunctCount(n.children[i], c, cfg));
    assert sums == [];
  }

  /**
   * When neither the escaper nor the length formatter ever produces c, every
   * c in the composed text is one the writer emits for the tree's structure.
   */
  lemma {:induction false} PunctuationCount(n: Node, c: char, cfg: WriterConfig, escape: Escaper, fmt: LengthFormatter)
    requires EscapeAddsNo(escape, c) && FreeOf(n, c)
    requires cfg.edgeLengths ==> forall leaf, x :: c !in fmt(leaf, x)
    ensures Count(c, ComposeNode(n, cfg, escape, fmt)) == PunctCount(n, c, cfg)
    decreases n
  {
    assert NodeFreeOf(n, c);
    if |n.children| > 0 {
      forall i | 0 <= i < |n.children|
        ensures Count(c, ComposeNode(n.children[i], cfg, escape, fmt)) == PunctCount(n.children[i], c, cfg)
      {
        assert FreeOf(n.children[i], c);
        PunctuationCount(n.children[i], c, cfg, escape, fmt);
      }
      ChildSumsAgree(n, c, cfg, escape, fmt);
    } else {
      LeafPunctCount(n, c, cfg);
    }
    ComposeCountShape(n, c, cfg, escape, fmt);
  }

  /** Characters other than `(`, `)`, `,` and (with edge lengths) `:` are never emitted by the writer itself. */
  lemma {:induction false} PunctCountZero(n: Node, c: char, cfg: WriterConfig)
    requires c != '(' && c != ')' && c != ','
    requires c == ':' ==> !cfg.edgeLengths
    ensures PunctCount(n, c, cfg) == 0
    decreases n
  {
    var sums := seq(|n.children|, i requires 0 <= i < |n.children| => PunctCount(n.children[i], c, cfg));
    forall i | 0 <= i < |n.children| ensures sums[i] == 0 {
      PunctCountZero(n.children[i], c, cfg);
    }
    SumNatZero(sums);
  }

  lemma {:induction false} PunctCountParens(n: Node, cfg: WriterConfig)
    ensures PunctCount(n, '(', cfg) == PunctCount(n, ')', cfg)
    decreases n
  {
    var opens := seq(|n.children|, i requires 0 <= i < |n.children| => PunctCount(n.children[i], '(', cfg));
    var closes := seq(|n.children|, i requires 0 <= i < |n.children| => PunctCount(n.children[i], ')', cfg));
    forall i | 0 <= i < |n.children| ensures opens[i] == closes[i] {
      PunctCountParens(n.children[i], cfg);
    }
    assert opens == closes;
  }

  /** With tags and lengths free of parentheses, the composed text has as many `(` as `)`. */
  lemma ParensBalanced(n: Node, cfg: WriterConfig, escape: Escaper, fmt: LengthFormatter)
    requires EscapeAddsNo(escape, '(') && EscapeAddsNo(escape, ')')
    requires FreeOf(n, '(') && FreeOf(n, ')')
    requires forall leaf, x :: '(' !in fmt(leaf, x) && ')' !in fmt(leaf, x)
    ensures Count('(', ComposeNode(n, cfg, escape, fmt)) == Count(')', ComposeNode(n, cfg, escape, fmt))
  {
    PunctuationCount(n, '(', cfg, escape, fmt);
    PunctuationCount(n, ')', cfg, escape, fmt);
    PunctCountParens(n, cfg);
  }

  /** With edge lengths switched off and colon-free tags, no `:` appears anywhere. */
  lemma NoColonWithoutEdgeLengths(n: Node, cfg: WriterConfig, escape: Escaper, fmt: LengthFormatter)
    requires !cfg.edgeLengths
    requires EscapeAddsNo(escape, ':') && FreeOf(n, ':')
    ensures ':' !in ComposeNode(n, cfg, escape, fmt)
  {
    PunctuationCount(n, ':', cfg, escape, fmt);
    PunctCountZero(n, ':', cfg);
  }

  /** A leaf's text holds a `:` exactly when edge lengths are written and its edge has a length. */
  lemma LeafColon(n: Node, cfg: WriterConfig, escape: Escaper, fmt: LengthFormatter)
    requires n.children == []
    requires EscapeAddsNo(escape, ':') && NodeFreeOf(n, ':')
    requires forall leaf, x :: ':' !in fmt(leaf, x)
    ensures ':' in ComposeNode(n, cfg, escape, fmt) <==> cfg.edgeLengths && n.edgeLength.Some?
  {
    PunctuationCount(n, ':', cfg, escape, fmt);
    assert PunctCount(n, ':', cfg) == OwnCount(n, ':', cfg);
  }

  /** Writing a concatenation of tree lists writes one after the other. */
  lemma {:induction false} TreeListTextAppend(a: seq<Tree>, b: seq<Tree>, cfg: WriterConfig, escape: Escaper, fmt: LengthFormatter)
    ensures TreeListText(a + b, cfg, escape, fmt) == TreeListText(a, cfg, escape, fmt) + TreeListText(b, cfg, escape, fmt)
    decreases |a|
  {
    if a == [] {
      assert a + b == b;
    } else if !cfg.excludeTrees {
      assert (a + b)[0] == a[0] && (a + b)[1..] == a[1..] + b;
      TreeListTextAppend(a[1..], b, cfg, escape, fmt);
    }
  }

  /**
   * Written tree lists are one statement per tree: with tags and lengths free
   * of `;`, the text holds exactly one `;` per tree, or none when trees are excluded.
   */
  lemma {:induction false} OneStatementPerTree(trees: seq<Tree>, cfg: WriterConfig, escape: Escaper, fmt: LengthFormatter)
    requires EscapeAddsNo(escape, ';')
    requires forall i :: 0 <= i < |trees| ==> FreeOf(trees[i].seedNode, ';')
    requires forall leaf, x :: ';' !in fmt(leaf, x)
    ensures Count(';', TreeListText(trees, cfg, escape, fmt)) == if cfg.excludeTrees then 0 else |trees|
    decreases |trees|
  {
    if !cfg.excludeTrees && trees != [] {
      var first := ComposeTree(trees[0], cfg, escape, fmt);
      var rest := TreeListText(trees[1..], cfg, escape, fmt);
      TreeHasNoSemicolon(trees[0], cfg, escape, fmt);
      assert forall i :: 0 <= i < |trees[1..]| ==> trees[1..][i] == trees[i + 1];
      OneStatementPerTree(trees[1..], cfg, escape, fmt);
      StatementCount(first, rest);
      assert TreeListText(trees, cfg, escape, fmt) == first + ";\n" + rest;
    }
  }

  lemma TreeHasNoSemicolon(t: Tree, cfg: WriterConfig, escape: Escaper, fmt: LengthFormatter)
    requires EscapeAddsNo(escape, ';') && FreeOf(t.seedNode, ';')
    requires forall leaf, x :: ';' !in fmt(leaf, x)
    ensures Count(';', ComposeTree(t, cfg, escape, fmt)) == 0
  {
    PunctuationCount(t.seedNode, ';', cfg, escape, fmt);
    PunctCountZero(t.seedNode, ';', cfg);
  }

  lemma StatementCount(first: string, rest: string)
    ensures Count(';', first + ";\n" + rest) == Count(';', first) + 1 + Count(';', rest)
  {
    CountConcat(';', first, ";\n");
    CountConcat(';', first + ";\n", rest);
  }

  /** s without the structural punctuation `(`, `)` and `,`. */
  function Strip(s: string): string
  {
    if s == "" then "" else (if s[0] in "()," then "" else [s[0]]) + Strip(s[1..])
  }

  function Concat(xs: seq<string>): string
  {
    if xs == [] then "" else xs[0] + Concat(xs[1..])
  }

  lemma {:induction false} StripConcat(a: string, b: string)
    ensures Strip(a + b) == Strip(a) + Strip(b)
    decreases |a|
  {
    if a == "" {
      assert a + b == b;
    } else {
      assert (a + b)[0] == a[0] && (a + b)[1..] == a[1..] + b;
      StripConcat(a[1..], b);
    }
  }

  function Stripped(xs: seq<string>): (r: seq<string>)
    ensures |r| == |xs|
  {
    seq(|xs|, i requires 0 <= i < |xs| => Strip(xs[i]))
  }

  lemma {:induction false} StripJoin(xs: seq<string>)
    ensures Strip(Join(",", xs)) == Concat(Stripped(xs))
    decreases |xs|
  {
    if |xs| == 1 {
      assert Stripped(xs)[1..] == [];
    } else if |xs| > 1 {
      var rest := Join(",", xs[1..]);
      assert Join(",", xs) == xs[0] + ("," + rest);
      StripConcat(xs[0], "," + rest);
      StripConcat(",", rest);
      assert Strip(",") == "";
      StripJoin(xs[1..]);
      assert Stripped(xs)[1..] == Stripped(xs[1..]);
    }
  }

  /**
   * The tags of the subtree of n in postorder -- each leaf's tag, and each
   * internal node's tag after its children's when internal labels are written.
   */
  function PostorderTags(n: Node, cfg: WriterConfig, escape: Escaper): string
    decreases n
  {
    if |n.children| == 0 then ChooseDisplayTag(n, cfg, escape)
    else
      Concat(seq(|n.children|, i requires 0 <= i < |n.children| => PostorderTags(n.children[i], cfg, escape)))
      + (if cfg.internalLabels then ChooseDisplayTag(n, cfg, escape) else "")
  }

  /**
   * Without edge lengths and with tags free of `(`, `)` and `,`, the composed
   * text is the tags in postorder -- leaves left to right -- plus punctuation.
   */
  lemma {:induction false} TagsInPostorder(n: Node, cfg: WriterConfig, escape: Escaper, fmt: LengthFormatter)
    requires !cfg.edgeLengths
    requires forall s, a, b :: Strip(s) == s ==> Strip(escape(s, a, b)) == escape(s, a, b)
    requires FreeOf(n, '(') && FreeOf(n, ')') && FreeOf(n, ',')
    ensures Strip(ComposeNode(n, cfg, escape, fmt)) == PostorderTags(n, cfg, escape)
    decreases n
  {
    var tag := ChooseDisplayTag(n, cfg, escape);
    TagStripped(n, cfg, escape);
    assert EdgeSuffix(n, cfg, fmt) == "";
    if |n.children| > 0 {
      var subnodes := Subnodes(n, cfg, escape, fmt);
      var tags := seq(|n.children|, i requires 0 <= i < |n.children| => PostorderTags(n.children[i], cfg, escape));
      forall i | 0 <= i < |n.children| ensures Stripped(subnodes)[i] == tags[i] {
        TagsInPostorder(n.children[i], cfg, escape, fmt);
      }
      assert Stripped(subnodes) == tags;
      var own := if cfg.internalLabels then tag else "";
      assert ComposeNode(n, cfg, escape, fmt) == "(" + Join(",", subnodes) + ")" + own + "";
      StripWrapped(Join(",", subnodes), own);
      StripJoin(subnodes);
    } else {
      assert ComposeNode(n, cfg, escape, fmt) == tag + "";
      assert tag + "" == tag;
    }
  }

  lemma TagStripped(n: Node, cfg: WriterConfig, escape: Escaper)
    requires forall s, a, b :: Strip(s) == s ==> Strip(escape(s, a, b)) == escape(s, a, b)
    requires NodeFreeOf(n, '(') && NodeFreeOf(n, ')') && NodeFreeOf(n, ',')
    ensures Strip(ChooseDisplayTag(n, cfg, escape)) == ChooseDisplayTag(n, cfg, escape)
  {
    if n.taxonLabel.Some? {
      StripFree(n.taxonLabel.value);
    }
    if n.name.Some? {
      StripFree(n.name.value);
    }
    StripFree(n.oid);
  }

  /** A string free of `(`, `)` and `,` is left as it is by Strip. */
  lemma {:induction false} StripFree(s: string)
    requires '(' !in s && ')' !in s && ',' !in s
    ensures Strip(s) == s
  {
    if s != "" {
      assert forall x :: x in s[1..] ==> x in s;
      StripFree(s[1..]);
      assert [s[0]] + s[1..] == s;
    }
  }

  lemma StripWrapped(joined: string, own: string)
    ensures Strip("(" + joined + ")" + own + "") == Strip(joined) + Strip(own)
  {
    assert "(" + joined + ")" + own + "" == "(" + (joined + (")" + own));
    StripConcat("(", joined + (")" + own));
    StripConcat(joined, ")" + own);
    StripConcat(")", own);
  }

  // ---------------------------------------------------------------------------
  // Rendering a split

  /**
   * Why `split_as_newick_string` produces no string: its closing assertion
   * fails, or (as written) a name it uses is not defined.
   */
  datatype SplitError = PartitionIncomplete | UndefinedName(name: string)

  /** The positions i < n whose bit in split is `bit`, in increasing order. */
  function BitPositions(n: nat, split: int, bit: bool): (r: seq<nat>)
    ensures forall i :: 0 <= i < |r| ==> r[i] < n
  {
    if n == 0 then []
    else BitPositions(n - 1, split, bit) + (if BitSet(split, n - 1) == bit then [n - 1] else [])
  }

  /** The labels at the given positions, in that order. */
  function Pick(labels: seq<string>, positions: seq<nat>): (r: seq<string>)
    requires forall i :: 0 <= i < |positions| ==> positions[i] < |labels|
    ensures |r| == |positions|
  {
    seq(|positions|, i requires 0 <= i < |positions| => labels[positions[i]])
  }

  /** The labels on one side of split: bit set (`left`) or clear (`right`). */
  function Side(labels: seq<string>, split: int, bit: bool): seq<string>
  {
    Pick(labels, BitPositions(|labels|, split, bit))
  }

  /** `[escape_nexus_token(label, ...) for label in labels]`: every label escaped, the empty one too. */
  function EscapeLabels(labels: seq<string>, escape: Escaper, preserveSpaces: bool, quoteUnderscores: bool): (r: seq<string>)
    ensures |r| == |labels|
    ensures forall i :: 0 <= i < |labels| ==> r[i] == escape(labels[i], preserveSpaces, quoteUnderscores)
  {
    seq(|labels|, i requires 0 <= i < |labels| => escape(labels[i], preserveSpaces, quoteUnderscores))
  }

  /**
   * What `split_as_newick_string` returns for the (escaped) labels of a
   * registry: the root split -- 0 or every taxon -- as one group, any other
   * split as its two sides, and a failed assertion for a negative split of a
   * non-empty registry, which the bit loop never enters.
   */
  function SplitNewick(split: int, taxlabels: seq<string>): (r: Result<string, SplitError>)
    ensures r.Failure? <==> split < 0 && |taxlabels| > 0
    ensures r.Failure? ==> r.error == PartitionIncomplete
  {
    if split == 0 || split == Taxa.AllTaxaBitmask(|taxlabels|) then
      Success("(" + Join(",", taxlabels) + ")")
    else if split < 0 && |taxlabels| > 0 then
      Failure(PartitionIncomplete)
    else
      Success("((" + Join(", ", Side(taxlabels, split, true)) + "), ("
              + Join(", ", Side(taxlabels, split, false)) + "))")
  }

  /** The two trivial splits, no taxon and every taxon, render identically as one group. */
  lemma TrivialSplitsAlike(taxlabels: seq<string>)
    ensures SplitNewick(0, taxlabels) == SplitNewick(Taxa.AllTaxaBitmask(|taxlabels|), taxlabels)
            == Success("(" + Join(",", taxlabels) + ")")
  {
  }

  lemma PickSnoc(labels: seq<string>, positions: seq<nat>, p: nat)
    requires forall i :: 0 <= i < |positions| ==> positions[i] < |labels|
    requires p < |labels|
    ensures Pick(labels, positions + [p]) == Pick(labels, positions) + [labels[p]]
  {
    assert forall i :: 0 <= i < |positions| ==> (positions + [p])[i] == positions[i];
  }

  /** One more bit inspected: the position joins the side its bit selects. */
  lemma BitPositionsStep(labels: seq<string>, k: nat, split: int, bit: bool)
    requires k < |labels|
    ensures Pick(labels, BitPositions(k + 1, split, bit))
            == Pick(labels, BitPositions(k, split, bit)) + (if BitSet(split, k) == bit then [labels[k]] else [])
  {
    if BitSet(split, k) == bit {
      PickSnoc(labels, BitPositions(k, split, bit), k);
    } else {
      assert BitPositions(k + 1, split, bit) == BitPositions(k, split, bit);
    }
  }

  /**
   * `split_as_newick_string(split, taxon_set, preserve_spaces)`, with the
   * `quote_underscores` flag the source leaves undefined as a parameter and
   * the registry's `all_taxa_bitmask()` as the root test: labels are split
   * bit by bit, lowest bit first, until the split runs out of labels.
   */
  method SplitAsNewickString(split: int, taxonSet: Taxa.TaxonSet, preserveSpaces: bool, quoteUnderscores: bool, escape: Escaper)
    returns (r: Result<string, SplitError>)
    ensures r == SplitNewick(split, EscapeLabels(taxonSet.Labels(), escape, preserveSpaces, quoteUnderscores))
  {
    var taxlabels := EscapeLabels(taxonSet.Labels(), escape, preserveSpaces, quoteUnderscores);
    var n := |taxlabels|;
    if split == 0 || split == Taxa.AllTaxaBitmask(n) {
      return Success("(" + Join(",", taxlabels) + ")");
    }
    var idx := 0;
    var s := split;
    var left: seq<string> := [];
    var right: seq<string> := [];
    while s >= 0 && idx < n
      invariant 0 <= idx <= n
      invariant s == Shr(split, idx)
      invariant split < 0 ==> idx == 0
      invariant split >= 0 ==> s >= 0
      invariant left == Pick(taxlabels, BitPositions(idx, split, true))
      invariant right == Pick(taxlabels, BitPositions(idx, split, false))
    {
      BitPositionsStep(taxlabels, idx, split, true);
      BitPositionsStep(taxlabels, idx, split, false);
      if s % 2 == 1 {
        left := left + [taxlabels[idx]];
      } else {
        right := right + [taxlabels[idx]];
      }
      idx := idx + 1;
      s := s / 2;
    }
    BitPositionsCover(idx, split);
    if |left| + |right| != n {
      assert split < 0 && n > 0;
      return Failure(PartitionIncomplete);
    }
    assert idx == n && left == Side(taxlabels, split, true) && right == Side(taxlabels, split, false);
    return Success("((" + Join(", ", left) + "), (" + Join(", ", right) + "))");
  }

  /** Each position below n lies on exactly one side. */
  lemma {:induction false} BitPositionsCover(n: nat, split: int)
    ensures |BitPositions(n, split, true)| + |BitPositions(n, split, false)| == n
  {
    if n > 0 {
      BitPositionsCover(n - 1, split);
    }
  }

  /** A position is listed exactly when it is below n and its bit is `bit`. */
  lemma {:induction false} BitPositionsMember(n: nat, split: int, bit: bool, i: nat)
    ensures i in BitPositions(n, split, bit) <==> i < n && BitSet(split, i) == bit
  {
    if n > 0 {
      BitPositionsMember(n - 1, split, bit, i);
    }
  }

  /** Each side keeps the registry's order. */
  lemma {:induction false} BitPositionsAscending(n: nat, split: int, bit: bool)
    ensures forall i, j :: 0 <= i < j < |BitPositions(n, split, bit)| ==>
              BitPositions(n, split, bit)[i] < BitPositions(n, split, bit)[j]
  {
    if n > 0 {
      BitPositionsAscending(n - 1, split, bit);
    }
  }

  lemma {:induction false} PrefixPartition(labels: seq<string>, k: nat, split: int)
    requires k <= |labels|
    ensures multiset(Pick(labels, BitPositions(k, split, true))) + multiset(Pick(labels, BitPositions(k, split, false)))
            == multiset(labels[..k])
  {
    if k > 0 {
      PrefixPartition(labels, k - 1, split);
      BitPositionsStep(labels, k - 1, split, true);
      BitPositionsStep(labels, k - 1, split, false);
      assert labels[..k] == labels[..k - 1] + [labels[k - 1]];
      SnocPartition(Pick(labels, BitPositions(k - 1, split, true)), Pick(labels, BitPositions(k - 1, split, false)),
                    labels[..k - 1], labels[k - 1], BitSet(split, k - 1));
    }
  }

  lemma SnocPartition(left: seq<string>, right: seq<string>, whole: seq<string>, x: string, b: bool)
    requires multiset(left) + multiset(right) == multiset(whole)
    ensures multiset(left + (if b then [x] else [])) + multiset(right + (if b == false then [x] else []))
            == multiset(whole + [x])
  {
  }

  /** The two sides of any split together hold every label exactly as often as the registry does. */
  lemma SidesPartition(labels: seq<string>, split: int)
    ensures multiset(Side(labels, split, true)) + multiset(Side(labels, split, false)) == multiset(labels)
    ensures |Side(labels, split, true)| + |Side(labels, split, false)| == |labels|
  {
    PrefixPartition(labels, |labels|, split);
    assert labels[..|labels|] == labels;
    BitPositionsCover(|labels|, split);
  }

  lemma {:induction false} BitPositionsComplement(k: nat, split: int, n: nat)
    requires k <= n
    ensures BitPositions(k, Taxa.ComplementSplitBitmask(split, n), true) == BitPositions(k, split, false)
    ensures BitPositions(k, Taxa.ComplementSplitBitmask(split, n), false) == BitPositions(k, split, true)
  {
    if k > 0 {
      BitPositionsComplement(k - 1, split, n);
      assert BitSet(Taxa.ComplementSplitBitmask(split, n), k - 1) <==> !BitSet(split, k - 1);
    }
  }

  /** The complementary split (`complement_split_bitmask`) swaps the two sides. */
  lemma ComplementSwapsSides(labels: seq<string>, split: int)
    ensures Side(labels, Taxa.ComplementSplitBitmask(split, |labels|), true) == Side(labels, split, false)
    ensures Side(labels, Taxa.ComplementSplitBitmask(split, |labels|), false) == Side(labels, split, true)
  {
    BitPositionsComplement(|labels|, split, |labels|);
  }

  /** A split clear of some bit below n, and with no bit from n upwards, is not every taxon. */
  lemma AllBitsBelow(split: int, n: nat)
    requires 0 <= split < Pow2(n)
    requires BitPositions(n, split, false) == []
    ensures split == Taxa.AllTaxaBitmask(n)
  {
    forall k: nat ensures BitSet(split, k) == BitSet(Taxa.AllTaxaBitmask(n), k) {
      BitPositionsMember(n, split, false, k);
      if k >= n {
        BelowPow2Bits(split, n, k);
      }
    }
    BitsDetermine(split, Taxa.AllTaxaBitmask(n));
  }

  /** A split that is neither empty nor every taxon puts at least one label on each side. */
  lemma NontrivialSidesNonEmpty(labels: seq<string>, split: int)
    requires 0 < split < Taxa.AllTaxaBitmask(|labels|)
    ensures |Side(labels, split, true)| > 0 && |Side(labels, split, false)| > 0
  {
    var n := |labels|;
    var k := PositiveHasBit(split);
    if k >= n {
      BelowPow2Bits(split, n, k);
    }
    BitPositionsMember(n, split, true, k);
    if BitPositions(n, split, false) == [] {
      AllBitsBelow(split, n);
    }
  }

  /** Rendering the complement of a non-trivial split lists the same two groups, swapped. */
  lemma ComplementRendersSwapped(labels: seq<string>, split: int)
    requires 0 < split < Taxa.AllTaxaBitmask(|labels|)
    ensures SplitNewick(Taxa.ComplementSplitBitmask(split, |labels|), labels)
            == Success("((" + Join(", ", Side(labels, split, false)) + "), ("
                       + Join(", ", Side(labels, split, true)) + "))")
  {
    var n := |labels|;
    var comp := Taxa.ComplementSplitBitmask(split, n);
    NontrivialSidesNonEmpty(labels, split);
    var cleared := BitPositions(n, split, false)[0];
    BitPositionsMember(n, split, false, cleared);
    assert BitSet(comp, cleared);
    ZeroHasNoBits(cleared);
    var set_ := BitPositions(n, split, true)[0];
    BitPositionsMember(n, split, true, set_);
    assert !BitSet(comp, set_) && BitSet(Taxa.AllTaxaBitmask(n), set_);
    ComplementSwapsSides(labels, split);
  }

  /**
   * `split_as_newick_string` as written: the label list reads a name
   * `quote_underscores` that is defined nowhere, so any non-empty registry
   * raises before the split is looked at; an empty one gets `()` for split 0,
   * and otherwise the call to the registry's `all_taxon_set_bitmask`, a
   * method TaxonSet does not have, raises.
   */
  function SplitAsNewickAsWritten(split: int, labels: seq<string>): (r: Result<string, SplitError>)
    ensures r.Success? <==> labels == [] && split == 0
  {
    if |labels| > 0 then Failure(UndefinedName("quote_underscores"))
    else if split == 0 then Success("()")
    else Failure(UndefinedName("all_taxon_set_bitmask"))
  }

  /** As written, no split of a non-empty registry renders; with both names supplied, every non-negative split does. */
  lemma SplitRenderingAsWrittenFails(split: int, labels: seq<string>)
    requires |labels| > 0 && split >= 0
    ensures SplitAsNewickAsWritten(split, labels).Failure?
    ensures SplitNewick(split, labels).Success?
  {
  }
}
