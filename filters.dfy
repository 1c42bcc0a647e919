/** The visibility pipeline of the graph view: the tag filter, the search
    filter, and the classification of links into drawn, partial and dropped. */
module Filters {
  import opened Graph
  import opened Seqs

  // ---------------------------------------------------------------------
  // Tag filter (OR semantics)
  // ---------------------------------------------------------------------

  /** Some tag of `n` is one of `filterTags`. */
  predicate TagMatch(n: Node, filterTags: seq<string>)
  {
    exists t :: t in n.tags && t in filterTags
  }

  function TagFilter(nodes: seq<Node>, filterTags: seq<string>): (r: seq<Node>)
    ensures filterTags == [] ==> r == nodes
    ensures filterTags != [] ==> forall n :: n in r <==> n in nodes && TagMatch(n, filterTags)
    ensures filterTags != [] ==>
      forall n :: multiset(r)[n] == if TagMatch(n, filterTags) then multiset(nodes)[n] else 0
    ensures IsSubseq(r, nodes)
  {
    if |filterTags| > 0 then
      FilterCounts(nodes, n => TagMatch(n, filterTags));
      Filter(nodes, n => TagMatch(n, filterTags))
    else SubseqRefl(nodes); nodes
  }

  // ---------------------------------------------------------------------
  // Case-insensitive substring search
  // ---------------------------------------------------------------------

  /** Lower-cases the ASCII letters A-Z. */
  function LowerChar(c: char): char
  {
    if 'A' <= c <= 'Z' then (c as int + 32) as char else c
  }

  function Lower(s: string): (r: string)
    ensures |r| == |s| && forall i :: 0 <= i < |s| ==> r[i] == LowerChar(s[i])
  {
    seq(|s|, i requires 0 <= i < |s| => LowerChar(s[i]))
  }

  predicate IsPrefix(p: string, s: string)
  {
    |p| <= |s| && s[..|p|] == p
  }

  /** `hay.includes(needle)`, scanning start positions left to right. */
  predicate Contains(hay: string, needle: string)
    decreases |hay|
  {
    IsPrefix(needle, hay) || (|hay| > 0 && Contains(hay[1..], needle))
  }

  /** Reference meaning of "needle is a substring of hay". */
  ghost predicate Occurs(hay: string, needle: string)
  {
    exists i :: 0 <= i <= |hay| && IsPrefix(needle, hay[i..])
  }

  lemma {:induction false} ContainsIffOccurs(hay: string, needle: string)
    ensures Contains(hay, needle) <==> Occurs(hay, needle)
    decreases |hay|
  {
    if IsPrefix(needle, hay) {
      assert hay[0..] == hay;
    }
    if |hay| > 0 {
      ContainsIffOccurs(hay[1..], needle);
      if Contains(hay[1..], needle) {
        var i :| 0 <= i <= |hay[1..]| && IsPrefix(needle, hay[1..][i..]);
        assert hay[1..][i..] == hay[i + 1..];
      }
      if Occurs(hay, needle) && !IsPrefix(needle, hay) {
        var i :| 0 <= i <= |hay| && IsPrefix(needle, hay[i..]);
        assert i != 0;
        assert hay[1..][i - 1..] == hay[i..];
      }
    } else {
      if Occurs(hay, needle) {
        var i :| 0 <= i <= |hay| && IsPrefix(needle, hay[i..]);
        assert hay[i..] == hay;
      }
    }
  }

  /** The search predicate: the lower-cased query occurs in the name, in
      non-empty notes, or in some tag. */
  predicate SearchMatch(n: Node, query: string)
  {
    var q := Lower(query);
    Contains(Lower(n.name), q)
    || (n.notes != "" && Contains(Lower(n.notes), q))
    || exists t :: t in n.tags && Contains(Lower(t), q)
  }

  lemma SearchMatchMeaning(n: Node, query: string)
    ensures SearchMatch(n, query) <==>
      Occurs(Lower(n.name), Lower(query))
      || (n.notes != "" && Occurs(Lower(n.notes), Lower(query)))
      || exists t :: t in n.tags && Occurs(Lower(t), Lower(query))
  {
    ContainsIffOccurs(Lower(n.name), Lower(query));
    ContainsIffOccurs(Lower(n.notes), Lower(query));
    forall t | t in n.tags {
      ContainsIffOccurs(Lower(t), Lower(query));
    }
  }

  /** Matching ignores the case of the query's ASCII letters. */
  lemma {:induction false} SearchIgnoresQueryCase(n: Node, query: string)
    ensures SearchMatch(n, query) <==> SearchMatch(n, Lower(query))
  {
    assert Lower(Lower(query)) == Lower(query);
  }

  function SearchFilter(nodes: seq<Node>, query: string): (r: seq<Node>)
    ensures query == "" ==> r == nodes
    ensures query != "" ==> forall n :: n in r <==> n in nodes && SearchMatch(n, query)
    ensures query != "" ==>
      forall n :: multiset(r)[n] == if SearchMatch(n, query) then multiset(nodes)[n] else 0
    ensures IsSubseq(r, nodes)
  {
    if query != "" then
      FilterCounts(nodes, n => SearchMatch(n, query));
      Filter(nodes, n => SearchMatch(n, query))
    else SubseqRefl(nodes); nodes
  }

  // ---------------------------------------------------------------------
  // Link classification
  // ---------------------------------------------------------------------

  predicate BothIn(l: Link, ids: seq<string>)
  {
    l.source in ids && l.target in ids
  }

  predicate ExactlyOneIn(l: Link, ids: seq<string>)
  {
    (l.source in ids) != (l.target in ids)
  }

  /** What the graph view shows: the visible nodes, the links drawn between
      them and the partial links that point off-screen. */
  datatype View = View(nodes: seq<Node>, links: seq<Link>, partial: seq<Link>)

  predicate Visible(n: Node, filterTags: seq<string>, query: string)
  {
    (filterTags == [] || TagMatch(n, filterTags)) && (query == "" || SearchMatch(n, query))
  }

  function ComputeView(nodes: seq<Node>, links: seq<Link>, filterTags: seq<string>, query: string): (v: View)
    ensures IsSubseq(v.nodes, nodes)
    ensures forall n :: n in v.nodes <==> n in nodes && Visible(n, filterTags, query)
    ensures forall l :: l in v.links <==> l in links && BothIn(l, Ids(v.nodes))
    ensures forall l :: l in v.partial <==>
      (filterTags != [] || query != "") && l in links && ExactlyOneIn(l, Ids(v.nodes))
    ensures IsSubseq(v.links, links) && IsSubseq(v.partial, links)
  {
    var tagged := TagFilter(nodes, filterTags);
    var taggedLinks := Filter(links, l => BothIn(l, Ids(tagged)));
    var shown := SearchFilter(tagged, query);
    var shownLinks := Filter(taggedLinks, l => BothIn(l, Ids(shown)));
    var partial :=
      if |filterTags| > 0 || query != "" then Filter(links, l => ExactlyOneIn(l, Ids(shown)))
      else [];
    SubseqTrans(shown, tagged, nodes);
    SubseqTrans(shownLinks, taggedLinks, links);
    TwoStageLinks(links, tagged, shown);
    View(shown, shownLinks, partial)
  }

  /** The view keeps every copy of each visible node, drawn link and partial
      link, and no copy of anything else. */
  lemma ViewCounts(nodes: seq<Node>, links: seq<Link>, filterTags: seq<string>, query: string)
    ensures var v := ComputeView(nodes, links, filterTags, query);
      forall n :: multiset(v.nodes)[n] == if Visible(n, filterTags, query) then multiset(nodes)[n] else 0
    ensures var v := ComputeView(nodes, links, filterTags, query);
      forall l :: multiset(v.links)[l] == if BothIn(l, Ids(v.nodes)) then multiset(links)[l] else 0
    ensures var v := ComputeView(nodes, links, filterTags, query);
      forall l :: multiset(v.partial)[l] ==
        if (filterTags != [] || query != "") && ExactlyOneIn(l, Ids(v.nodes)) then multiset(links)[l] else 0
  {
    var tagged := TagFilter(nodes, filterTags);
    var shown := SearchFilter(tagged, query);
    var inTagged := (l: Link) => BothIn(l, Ids(tagged));
    var inShown := (l: Link) => BothIn(l, Ids(shown));
    var taggedLinks := Filter(links, inTagged);
    FilterCounts(links, inTagged);
    FilterCounts(taggedLinks, inShown);
    forall s | s in Ids(shown) ensures s in Ids(tagged) {
      var n :| n in shown && n.id == s;
    }
    if filterTags != [] || query != "" {
      FilterCounts(links, (l: Link) => ExactlyOneIn(l, Ids(shown)));
    }
  }

  /** Filtering links by the tag stage and then by the search stage keeps
      exactly the links whose endpoints both survive the search stage. */
  lemma TwoStageLinks(links: seq<Link>, tagged: seq<Node>, shown: seq<Node>)
    requires forall n :: n in shown ==> n in tagged
    ensures forall l ::
      (l in Filter(Filter(links, l => BothIn(l, Ids(tagged))), l => BothIn(l, Ids(shown)))
      <==> l in links && BothIn(l, Ids(shown)))
  {
    forall s | s in Ids(shown) ensures s in Ids(tagged) {
      var n :| n in shown && n.id == s;
    }
  }

  lemma {:induction false} SubseqTrans<T>(a: seq<T>, b: seq<T>, c: seq<T>)
    requires IsSubseq(a, b) && IsSubseq(b, c)
    ensures IsSubseq(a, c)
    decreases |c|
  {
    if a != [] {
      assert b != [] && c != [];
      if b[0] == c[0] && IsSubseq(b[1..], c[1..]) {
        if a[0] == b[0] && IsSubseq(a[1..], b[1..]) {
          SubseqTrans(a[1..], b[1..], c[1..]);
        } else {
          SubseqTrans(a, b[1..], c[1..]);
        }
      } else {
        SubseqTrans(a, b, c[1..]);
      }
    }
  }

  /** A link is never both drawn and partial; a link with no visible endpoint
      is neither. */
  lemma ClassificationDisjoint(nodes: seq<Node>, links: seq<Link>, filterTags: seq<string>, query: string, l: Link)
    ensures var v := ComputeView(nodes, links, filterTags, query);
      !(l in v.links && l in v.partial)
      && (l.source !in Ids(v.nodes) && l.target !in Ids(v.nodes) ==> l !in v.links && l !in v.partial)
  {
  }

  /** With no tag filter and no query every node is visible and no link is partial. */
  lemma NoFilterShowsAll(nodes: seq<Node>, links: seq<Link>)
    ensures var v := ComputeView(nodes, links, [], "");
      v.nodes == nodes && v.partial == []
      && forall l :: l in v.links <==> l in links && BothIn(l, Ids(nodes))
  {
  }

  // ---------------------------------------------------------------------
  // Worked examples
  // ---------------------------------------------------------------------

  function Sample(id: string, name: string, tags: seq<string>): Node
  {
    Node(id, name, Note, false, None, [], [], "space-1", tags, 0, "", "", "", false, 0.0, 0.0, None, None)
  }

  /** Nodes a (tag x) and b (tag y), link a -> b, tag filter [x]: only a is
      visible and the link is partial. */
  lemma TagFilterScenario()
    ensures var a := Sample("a", "a", ["x"]);
      var b := Sample("b", "b", ["y"]);
      var l := Link("a", "b", 1, Connection, 0, ["x", "y"]);
      var v := ComputeView([a, b], [l], ["x"], "");
      v.nodes == [a] && l !in v.links && l in v.partial
  {
    var a := Sample("a", "a", ["x"]);
    var b := Sample("b", "b", ["y"]);
    assert "x" in a.tags && "x" in ["x"];
    assert TagMatch(a, ["x"]);
    assert !TagMatch(b, ["x"]);
    var p := (n: Node) => TagMatch(n, ["x"]);
    assert [a, b][1..] == [b] && [b][1..] == [];
    assert Filter([b], p) == [];
    assert Filter([a, b], p) == [a];
    var v := ComputeView([a, b], [Link("a", "b", 1, Connection, 0, ["x", "y"])], ["x"], "");
    assert v.nodes == [a];
    assert Ids(v.nodes) == ["a"];
  }

  /** The query "NOTE" finds a node named "note-1". */
  lemma SearchScenario()
    ensures SearchMatch(Sample("n1", "note-1", []), "NOTE")
  {
    assert Lower("NOTE") == "note";
    assert Lower("note-1") == "note-1";
    assert IsPrefix("note", "note-1");
  }
}
