/** The sidebar's list operations: toggling a tag in the tag filter, adding a
    space, the colour drawn for a new space, and the study-time statistic. */
module Sidebar {
  import opened Graph
  import opened Seqs

  // ---------------------------------------------------------------------
  // Tag filter toggle
  // ---------------------------------------------------------------------

  /** Clicking a tag button: an active tag is removed (every occurrence), an
      inactive one is appended. */
  function ToggleTag(filterTags: seq<string>, tag: string): seq<string>
  {
    if tag in filterTags then Filter(filterTags, t => t != tag) else filterTags + [tag]
  }

  /** The clicked tag changes state and no other tag does. */
  lemma ToggleMembership(filterTags: seq<string>, tag: string)
    ensures tag in ToggleTag(filterTags, tag) <==> tag !in filterTags
    ensures forall t :: t != tag ==> (t in ToggleTag(filterTags, tag) <==> t in filterTags)
  {
  }

  /** Removing keeps the other tags in their order; adding puts the tag last
      after the unchanged list. */
  lemma ToggleKeepsOrder(filterTags: seq<string>, tag: string)
    ensures tag in filterTags ==>
      IsSubseq(ToggleTag(filterTags, tag), filterTags)
      && |ToggleTag(filterTags, tag)| < |filterTags|
    ensures tag !in filterTags ==>
      |ToggleTag(filterTags, tag)| == |filterTags| + 1
      && ToggleTag(filterTags, tag)[..|filterTags|] == filterTags
      && ToggleTag(filterTags, tag)[|filterTags|] == tag
  {
    if tag in filterTags {
      FilterDropsAbsent(filterTags, tag);
    }
  }

  /** Filtering out an element that occurs shortens the list. */
  lemma {:induction false} FilterDropsAbsent(s: seq<string>, tag: string)
    requires tag in s
    ensures |Filter(s, t => t != tag)| < |s|
  {
    if s[0] != tag {
      FilterDropsAbsent(s[1..], tag);
    }
  }

  /** Toggling an inactive tag twice restores the filter. */
  lemma ToggleTwiceRestores(filterTags: seq<string>, tag: string)
    requires tag !in filterTags
    ensures ToggleTag(ToggleTag(filterTags, tag), tag) == filterTags
  {
    var p := (t: string) => t != tag;
    FilterAppend(filterTags, tag, p);
    FilterAllPass(filterTags, p);
  }

  /** Toggling an active tag twice moves it to the end, once. */
  lemma ToggleTwiceMovesToEnd(filterTags: seq<string>, tag: string)
    requires tag in filterTags
    ensures ToggleTag(ToggleTag(filterTags, tag), tag) == Filter(filterTags, t => t != tag) + [tag]
  {
  }

  // ---------------------------------------------------------------------
  // New spaces
  // ---------------------------------------------------------------------

  /** Appends an empty space called "New Space" with the given id and colour. */
  function AddNewSpace(spaces: seq<Space>, newId: string, color: string): seq<Space>
  {
    spaces + [Space(newId, "New Space", color, [])]
  }

  /** Exactly one space is added, at the end, and the others are untouched. */
  lemma AddNewSpaceAppends(spaces: seq<Space>, newId: string, color: string)
    ensures var r := AddNewSpace(spaces, newId, color);
      |r| == |spaces| + 1 && r[..|spaces|] == spaces
      && r[|spaces|].id == newId && r[|spaces|].name == "New Space"
      && r[|spaces|].color == color && r[|spaces|].nodes == []
  {
    var r := AddNewSpace(spaces, newId, color);
    assert r[..|spaces|] == spaces;
  }

  // ---------------------------------------------------------------------
  // Colour of a new space
  // ---------------------------------------------------------------------

  /** The largest draw: `Math.floor(Math.random() * 16777215)` is below 16777215. */
  const ColorDraws := 16777215

  /** The digit for 0 <= d < 16: '0'..'9', then 'a'..'f'. */
  function HexChar(d: nat): (c: char)
    requires d < 16
    ensures IsHexChar(c) && HexValue(c) == d
  {
    if d < 10 then ('0' as int + d) as char else ('a' as int + d - 10) as char
  }

  predicate IsHexChar(c: char)
  {
    '0' <= c <= '9' || 'a' <= c <= 'f'
  }

  predicate AllHex(s: string)
  {
    forall i :: 0 <= i < |s| ==> IsHexChar(s[i])
  }

  function HexValue(c: char): nat
    requires IsHexChar(c)
  {
    if '0' <= c <= '9' then c as int - '0' as int else c as int - 'a' as int + 10
  }

  /** Base-16 rendering without padding (JavaScript's `toString(16)`). */
  function Hex(n: nat): (s: string)
    ensures |s| >= 1 && AllHex(s)
  {
    if n < 16 then [HexChar(n)] else Hex(n / 16) + [HexChar(n % 16)]
  }

  function ParseHex(s: string): nat
    requires AllHex(s)
  {
    if s == [] then 0 else 16 * ParseHex(s[..|s| - 1]) + HexValue(s[|s| - 1])
  }

  lemma {:induction false} HexRoundTrip(n: nat)
    ensures ParseHex(Hex(n)) == n
  {
    if n >= 16 {
      var s := Hex(n / 16) + [HexChar(n % 16)];
      assert s[..|s| - 1] == Hex(n / 16);
      HexRoundTrip(n / 16);
      assert ParseHex(s) == 16 * (n / 16) + n % 16;
    }
  }

  /** The colour as written: "#" and the draw in hex, unpadded. */
  function DrawnColor(draw: nat): string
    requires draw < ColorDraws
  {
    "#" + Hex(draw)
  }

  /** A draw below 0x100000 gives fewer than six hex digits: 0xabcde becomes
      "#abcde", which has no colour meaning at that length. */
  lemma DrawnColorTooShort()
    ensures DrawnColor(0xabcde) == "#abcde" && |DrawnColor(0xabcde)| == 6
  {
    assert Hex(0xa) == "a";
    assert Hex(0xab) == "ab";
    assert Hex(0xabc) == "abc";
    assert Hex(0xabcd) == "abcd";
    assert Hex(0xabcde) == "abcde";
  }

  /** The colour padded on the left with zeros to six hex digits. */
  function PaddedColor(draw: nat): string
    requires draw < ColorDraws
  {
    HexFits(draw);
    var h := Hex(draw);
    "#" + Zeros(6 - |h|) + h
  }

  function Zeros(k: nat): (z: string)
    ensures |z| == k && AllHex(z)
  {
    seq(k, _ => '0')
  }

  /** A value below 16^6 has at most six hex digits. */
  lemma {:induction false} HexFits(n: nat)
    requires n < 16777216
    ensures |Hex(n)| <= 6
  {
    HexLength(n, 6);
  }

  lemma {:induction false} HexLength(n: nat, k: nat)
    requires k >= 1 && n < Power16(k)
    ensures |Hex(n)| <= k
  {
    if n >= 16 {
      assert Power16(1) == 16;
      HexLength(n / 16, k - 1);
    }
  }

  function Power16(k: nat): nat
  {
    if k == 0 then 1 else 16 * Power16(k - 1)
  }

  /** Leading zeros do not change a hex value. */
  lemma {:induction false} ParseHexZeros(k: nat, s: string)
    requires AllHex(s)
    ensures ParseHex(Zeros(k) + s) == ParseHex(s)
    decreases |s|
  {
    var z := Zeros(k);
    if s == [] {
      assert z + s == z;
      ParseZeros(k);
    } else {
      var t := z + s;
      assert t[..|t| - 1] == z + s[..|s| - 1];
      ParseHexZeros(k, s[..|s| - 1]);
    }
  }

  lemma {:induction false} ParseZeros(k: nat)
    ensures ParseHex(Zeros(k)) == 0
  {
    if k > 0 {
      assert Zeros(k)[..k - 1] == Zeros(k - 1);
      ParseZeros(k - 1);
    }
  }

  /** The padded colour is always "#" and six hex digits, and reads back as the draw. */
  lemma PaddedColorWellFormed(draw: nat)
    requires draw < ColorDraws
    ensures var c := PaddedColor(draw);
      |c| == 7 && c[0] == '#' && AllHex(c[1..]) && ParseHex(c[1..]) == draw
  {
    HexFits(draw);
    var h := Hex(draw);
    var c := PaddedColor(draw);
    assert c[1..] == Zeros(6 - |h|) + h;
    ParseHexZeros(6 - |h|, h);
    HexRoundTrip(draw);
  }

  // ---------------------------------------------------------------------
  // Study-time statistic
  // ---------------------------------------------------------------------

  /** The sum of all nodes' active minutes. */
  function TotalTime(nodes: seq<Node>): int
  {
    if nodes == [] then 0 else nodes[0].timeActive + TotalTime(nodes[1..])
  }

  /** The statistic shown in hours: the floor of the total minutes over 60. */
  function StudyHours(nodes: seq<Node>): int
  {
    TotalTime(nodes) / 60
  }

  /** The shown hours are the whole hours of the total, rounding down (also
      for a negative total). */
  lemma StudyHoursIsFloor(nodes: seq<Node>)
    ensures 60 * StudyHours(nodes) <= TotalTime(nodes) < 60 * StudyHours(nodes) + 60
  {
  }

  lemma {:induction false} TotalTimeAppend(a: seq<Node>, b: seq<Node>)
    ensures TotalTime(a + b) == TotalTime(a) + TotalTime(b)
  {
    if a == [] {
      assert a + b == b;
    } else {
      assert (a + b)[1..] == a[1..] + b;
      TotalTimeAppend(a[1..], b);
    }
  }
}
