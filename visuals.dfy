/** How a node is drawn: the radius tier of its circle and the offsets of the
    label, tag dots, time text and pulse ring derived from it, the truncated
    label, the "Xh Ym" time text, and the hover highlight. */
module Visuals {
  import opened Graph
  import opened Seqs

  // ---------------------------------------------------------------------
  // Radius tiers and the offsets drawn around the circle
  // ---------------------------------------------------------------------

  /** The circle radius: 25 for a parent, 20 for more than two connections,
      18 for more than an hour of activity, 12 otherwise. */
  function Radius(n: Node): int
  {
    if n.isParent then 25
    else if |n.connections| > 2 then 20
    else if n.timeActive > 60 then 18
    else 12
  }

  /** The radius takes one of four values, and the largest exactly for parents. */
  lemma RadiusTiers(n: Node)
    ensures Radius(n) == 12 || Radius(n) == 18 || Radius(n) == 20 || Radius(n) == 25
    ensures Radius(n) == 25 <==> n.isParent
  {
  }

  /** A parent's circle is at least as large as any node's. */
  lemma ParentIsLargest(p: Node, n: Node)
    requires p.isParent
    ensures Radius(n) <= Radius(p)
    ensures !n.isParent ==> Radius(n) < Radius(p)
  {
  }

  /** The label's vertical offset, written tier by tier. */
  function LabelOffset(n: Node): int
  {
    if n.isParent then -25 - 8
    else if |n.connections| > 2 then -20 - 8
    else if n.timeActive > 60 then -18 - 8
    else -12 - 8
  }

  /** The vertical offset of a tag dot, written tier by tier. */
  function TagDotOffset(n: Node): int
  {
    if n.isParent then 25 + 10
    else if |n.connections| > 2 then 20 + 10
    else if n.timeActive > 60 then 18 + 10
    else 12 + 10
  }

  /** The vertical offset of the time text, written tier by tier. */
  function TimeOffset(n: Node): int
  {
    if n.isParent then 25 + 20
    else if |n.connections| > 2 then 20 + 20
    else if n.timeActive > 60 then 18 + 20
    else 12 + 20
  }

  /** Every offset ladder follows the radius: the label sits 8 above the
      circle, the tag dots 10 below it and the time text 20 below it. */
  lemma OffsetsFollowRadius(n: Node)
    ensures LabelOffset(n) == -(Radius(n) + 8)
    ensures TagDotOffset(n) == Radius(n) + 10
    ensures TimeOffset(n) == Radius(n) + 20
  {
  }

  /** The pulse ring's radius. Its ladder has no tier for long activity. */
  function PulseRadius(n: Node): int
  {
    if n.isParent then 25 + 5
    else if |n.connections| > 2 then 20 + 5
    else 15 + 5
  }

  /** The pulse ring is 5 wider than the circle in the two top tiers and a
      fixed 20 otherwise, so it is only 2 wider than an 18-radius circle;
      it always encloses the circle. */
  lemma PulseSkipsActivityTier(n: Node)
    ensures PulseRadius(n) == if Radius(n) >= 20 then Radius(n) + 5 else 20
    ensures Radius(n) == 18 ==> PulseRadius(n) == Radius(n) + 2
    ensures PulseRadius(n) > Radius(n)
  {
  }

  /** The tag dot of node `visible[k]` takes its offset from the first visible
      node with the same id. */
  function TagDotOffsetIn(visible: seq<Node>, k: nat): int
    requires k < |visible|
  {
    var found := Find(visible, visible[k].id);
    assert visible[k].id in Ids(visible);
    TagDotOffset(found.value)
  }

  /** With distinct visible ids the dot is placed from the node's own radius. */
  lemma TagDotUsesOwnRadius(visible: seq<Node>, k: nat)
    requires k < |visible| && NoDup(Ids(visible))
    ensures TagDotOffsetIn(visible, k) == Radius(visible[k]) + 10
  {
    FindUnique(visible, k);
    OffsetsFollowRadius(visible[k]);
  }

  /** The dots drawn for a node: its first three tags, each with its
      horizontal offset (i - 1) * 10. */
  function TagDots(n: Node): (dots: seq<(string, int)>)
  {
    var shown := if |n.tags| > 3 then n.tags[..3] else n.tags;
    seq(|shown|, i requires 0 <= i < |shown| => (shown[i], (i - 1) * 10))
  }

  /** At most three dots, for the leading tags, at offsets -10, 0 and 10. */
  lemma TagDotsLayout(n: Node)
    ensures |TagDots(n)| == if |n.tags| > 3 then 3 else |n.tags|
    ensures forall i :: 0 <= i < |TagDots(n)| ==>
      TagDots(n)[i].0 == n.tags[i] && TagDots(n)[i].1 == (i - 1) * 10
    ensures forall i, j :: 0 <= i < j < |TagDots(n)| ==> TagDots(n)[i].1 < TagDots(n)[j].1
    ensures forall i :: 0 <= i < |TagDots(n)| ==> -10 <= TagDots(n)[i].1 <= 10
  {
  }

  // ---------------------------------------------------------------------
  // Label truncation
  // ---------------------------------------------------------------------

  /** A name longer than 20 characters is cut to 18 and given "...". */
  function Label(name: string): string
  {
    if |name| > 20 then name[..18] + "..." else name
  }

  /** A label is at most 21 characters long, short names are kept, and a long
      name keeps its first 18 characters. */
  lemma LabelShape(name: string)
    ensures |Label(name)| <= 21
    ensures |name| <= 20 ==> Label(name) == name
    ensures |name| > 20 ==>
      |Label(name)| == 21 && Label(name)[..18] == name[..18] && Label(name)[18..] == "..."
  {
  }

  /** Labelling a label changes nothing. */
  lemma {:induction false} LabelIdempotent(name: string)
    ensures Label(Label(name)) == Label(name)
  {
    if |name| > 20 {
      var l := name[..18] + "...";
      assert l[..18] == name[..18];
      assert l[..18] + "..." == l;
    }
  }

  // ---------------------------------------------------------------------
  // The "Xh Ym" time text
  // ---------------------------------------------------------------------

  function DigitChar(d: nat): char
    requires d < 10
  {
    "0123456789"[d]
  }

  predicate IsDigit(c: char)
  {
    '0' <= c <= '9'
  }

  function DigitValue(c: char): nat
    requires IsDigit(c)
  {
    c as int - '0' as int
  }

  /** Base-10 rendering of a natural number (JavaScript's number-to-string on
      a non-negative integer). */
  function Decimal(n: nat): (s: string)
    ensures |s| >= 1 && AllDigits(s)
  {
    if n < 10 then [DigitChar(n)] else Decimal(n / 10) + [DigitChar(n % 10)]
  }

  /** Reads a string of digits back as a number. */
  function ParseDecimal(s: string): nat
    requires AllDigits(s)
  {
    if s == [] then 0 else 10 * ParseDecimal(s[..|s| - 1]) + DigitValue(s[|s| - 1])
  }

  lemma {:induction false} DecimalRoundTrip(n: nat)
    ensures ParseDecimal(Decimal(n)) == n
  {
    if n >= 10 {
      var s := Decimal(n / 10) + [DigitChar(n % 10)];
      assert s[..|s| - 1] == Decimal(n / 10);
      DecimalRoundTrip(n / 10);
    }
  }

  /** The time text under a node: empty below one minute, otherwise whole
      hours and the remaining minutes. */
  function TimeText(t: int): string
  {
    if t < 1 then "" else Decimal(t / 60) + "h " + Decimal(t % 60) + "m"
  }

  /** Reads "<h>h <m>m" back as the pair (hours, minutes). */
  function ParseTimeText(s: string): Option<(int, int)>
  {
    if 'h' !in s then None
    else
      var i := FirstIndex(s, 'h');
      ParseTimeParts(s[..i], s[i + 1..])
  }

  predicate AllDigits(s: string)
  {
    forall j :: 0 <= j < |s| ==> IsDigit(s[j])
  }

  /** The hours before the 'h' and " <m>m" after it. */
  function ParseTimeParts(hours: string, rest: string): Option<(int, int)>
  {
    if |rest| < 2 || rest[0] != ' ' || rest[|rest| - 1] != 'm' then None
    else
      var minutes := rest[1..|rest| - 1];
      if AllDigits(hours) && AllDigits(minutes)
      then Some((ParseDecimal(hours), ParseDecimal(minutes)))
      else None
  }

  /** Below one minute nothing is shown; otherwise the text reads back as
      whole hours and the leftover minutes (under 60) of the activity. */
  lemma TimeTextRoundTrip(t: int)
    ensures t < 1 ==> TimeText(t) == ""
    ensures t >= 1 ==> ParseTimeText(TimeText(t)).Some?
    ensures t >= 1 ==>
      var p := ParseTimeText(TimeText(t)).value;
      60 * p.0 + p.1 == t && 0 <= p.1 < 60
  {
    if t >= 1 {
      var h, m := t / 60, t % 60;
      assert t == 60 * h + m;
      calc {
        ParseTimeText(TimeText(t));
      == { assert TimeText(t) == Decimal(h) + "h" + (" " + Decimal(m) + "m"); }
        ParseTimeText(Decimal(h) + "h" + (" " + Decimal(m) + "m"));
      == { ShowParse(h, m); }
        Some((h, m));
      }
    }
  }

  lemma ShowParse(h: nat, m: nat)
    ensures ParseTimeText(Decimal(h) + "h" + (" " + Decimal(m) + "m")) == Some((h, m))
  {
    var hs, ms := Decimal(h), Decimal(m);
    calc {
      ParseTimeText(hs + "h" + (" " + ms + "m"));
    == { ParseHoursMinutes(hs, ms); }
      Some((ParseDecimal(hs), ParseDecimal(ms)));
    == { DecimalRoundTrip(h); DecimalRoundTrip(m); }
      Some((h, m));
    }
  }

  lemma ParseHoursMinutes(hs: string, ms: string)
    requires AllDigits(hs) && AllDigits(ms)
    ensures ParseTimeText(hs + "h" + (" " + ms + "m")) == Some((ParseDecimal(hs), ParseDecimal(ms)))
  {
    SplitAtFirstH(hs, " " + ms + "m");
    ParseMinutesPart(hs, ms);
  }

  lemma ParseMinutesPart(hs: string, ms: string)
    requires AllDigits(hs) && AllDigits(ms)
    ensures ParseTimeParts(hs, " " + ms + "m") == Some((ParseDecimal(hs), ParseDecimal(ms)))
  {
    var rest := " " + ms + "m";
    assert rest[1..|rest| - 1] == ms;
  }

  /** The first 'h' after a run of digits is the one that ends it. */
  lemma SplitAtFirstH(hs: string, rest: string)
    requires AllDigits(hs)
    ensures var s := hs + "h" + rest;
      'h' in s && FirstIndex(s, 'h') == |hs| && s[..|hs|] == hs && s[|hs| + 1..] == rest
  {
    var s := hs + "h" + rest;
    assert s[|hs|] == 'h';
    assert forall j :: 0 <= j < |hs| ==> s[j] == hs[j];
    assert s[..|hs|] == hs;
    assert s[|hs| + 1..] == rest;
  }

  // ---------------------------------------------------------------------
  // Hover highlight
  // ---------------------------------------------------------------------

  /** The ids kept lit while hovering `d`: itself, its connections, its parent
      and its children, without the falsy ones (null and ""). */
  function HoverIds(d: Node): seq<string>
  {
    var parent := if d.parentId.Some? then [d.parentId.value] else [];
    Filter([d.id] + d.connections + parent + d.children, s => s != "")
  }

  /** Node `n` stays at full opacity while `d` is hovered. */
  predicate NodeLit(n: Node, d: Node)
  {
    n.id in HoverIds(d)
  }

  /** Link `l` is emphasised while `d` is hovered. */
  predicate LinkLit(l: Link, d: Node)
  {
    l.source == d.id || l.target == d.id
  }

  /** A node with a non-empty id is lit exactly when it is the hovered node,
      one of its connections, its parent or one of its children. */
  lemma HoverAdjacency(n: Node, d: Node)
    requires n.id != ""
    ensures NodeLit(n, d) <==>
      n.id == d.id || n.id in d.connections || d.parentId == Some(n.id) || n.id in d.children
  {
  }

  /** A lit link need not have a lit far end: a link drawn from another
      node's connection list into the hovered node is emphasised while that
      other node stays dimmed. */
  lemma HoverLinkEndDimmed()
    ensures var d := Node("d", "d", Note, false, None, [], [], "s", [], 0, "", "", "", false, 0.0, 0.0, None, None);
      var n := d.(id := "n", connections := ["d"]);
      var l := Link("n", "d", 1, Connection, 0, []);
      LinkLit(l, d) && !NodeLit(n, d)
  {
    var d := Node("d", "d", Note, false, None, [], [], "s", [], 0, "", "", "", false, 0.0, 0.0, None, None);
    assert [d.id] + d.connections + [] + d.children == ["d"];
    assert Filter(["d"], s => s != "") == ["d"];
  }
}
