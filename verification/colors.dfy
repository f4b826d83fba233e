/** The editor's state and its colour change (`handleColorChange`): picking a
    colour makes it the background and appends it to the recent colours, of
    which only the last five are kept. */
module Colors {

  /** A colour as the picker reports it, a hex string such as "#0369A1", or
      a CSS colour name. */
  type Color = string

  /** How many recent colours the editor keeps. */
  const RecentCapacity: nat := 5

  /** The part of the editor's state that the colour change and the text
      layout read.  The uploaded image and the colour picker's visibility
      are not modelled. */
  datatype EditState = EditState(
    caption: string,
    cta: string,
    backgroundColor: Color,
    recentColors: seq<Color>
  )

  /** The state the editor starts in. */
  const Initial: EditState := EditState(
    "1 & 2 BHK Luxury Apartments at just Rs.34.97 Lakhs",
    "Shop Now",
    "#0369A1",
    ["red", "yellow", "blue", "cyan", "green"]
  )

  function Min(a: int, b: int): int {
    if a <= b then a else b
  }

  /** `s` is a suffix of `t`. */
  ghost predicate IsSuffix<T>(s: seq<T>, t: seq<T>) {
    |s| <= |t| && t[|t| - |s|..] == s
  }

  /** JavaScript's `s.slice(-k)` for a positive `k`: the last `k` elements,
      or all of `s` when it is shorter. */
  function KeepLast<T>(s: seq<T>, k: nat): (r: seq<T>)
    requires k > 0
    ensures |r| == Min(|s|, k)
    ensures IsSuffix(r, s)
  {
    if |s| <= k then s else s[|s| - k..]
  }

  /** Picks `hex`: it becomes the background colour and the newest recent
      colour; the oldest recent colours drop out so that at most five stay,
      the others keep their order, and repeats are kept. */
  function ChangeColor(st: EditState, hex: Color): (r: EditState)
    ensures r.backgroundColor == hex
    ensures |r.recentColors| == Min(|st.recentColors| + 1, RecentCapacity)
    ensures IsSuffix(r.recentColors, st.recentColors + [hex])
    ensures r.recentColors[|r.recentColors| - 1] == hex
    ensures IsSuffix(r.recentColors[..|r.recentColors| - 1], st.recentColors)
    ensures r.caption == st.caption && r.cta == st.cta
  {
    var recent := KeepLast(st.recentColors + [hex], RecentCapacity);
    assert recent[..|recent| - 1] == st.recentColors[|st.recentColors| - (|recent| - 1)..];
    st.(backgroundColor := hex, recentColors := recent)
  }

  /** Picks the colours one after the other. */
  function ChangeColors(st: EditState, hexes: seq<Color>): EditState
    decreases |hexes|
  {
    if |hexes| == 0 then st
    else ChangeColors(ChangeColor(st, hexes[0]), hexes[1..])
  }

  /** The recent colours behave as a queue of capacity five: after one or
      more picks they are the last five of the old recent colours followed
      by the picks, and the background is the last pick. */
  lemma {:induction false} ChangeColorsFifo(st: EditState, hexes: seq<Color>)
    requires |hexes| > 0
    ensures ChangeColors(st, hexes).recentColors == KeepLast(st.recentColors + hexes, RecentCapacity)
    ensures ChangeColors(st, hexes).backgroundColor == hexes[|hexes| - 1]
    decreases |hexes|
  {
    var next := ChangeColor(st, hexes[0]);
    var u := st.recentColors + [hexes[0]];
    assert u + hexes[1..] == st.recentColors + hexes;
    KeepLastConcat(u, hexes[1..], RecentCapacity);
    if |hexes| > 1 {
      ChangeColorsFifo(next, hexes[1..]);
      assert hexes[1..][|hexes[1..]| - 1] == hexes[|hexes| - 1];
    } else {
      assert hexes[1..] == [];
    }
  }

  /** Keeping the last `k` of a prefix before appending does not change the
      last `k` of the whole. */
  lemma KeepLastConcat<T>(s: seq<T>, t: seq<T>, k: nat)
    requires k > 0
    ensures KeepLast(KeepLast(s, k) + t, k) == KeepLast(s + t, k)
  {
    var u := s + t;
    if |s| > k {
      var v := KeepLast(s, k) + t;
      assert v == u[|s| - k..];
      assert |v| == k + |t| && |u| == |s| + |t|;
      if |t| > 0 {
        assert v[|v| - k..] == u[|u| - k..];
      }
    }
  }

  /** One pick from the state the editor starts in keeps five recent
      colours: the oldest, "red", drops out and the pick comes last. */
  lemma FirstPickFromInitial(hex: Color)
    ensures ChangeColor(Initial, hex).recentColors == ["yellow", "blue", "cyan", "green", hex]
    ensures ChangeColor(Initial, hex).backgroundColor == hex
  {
    var r := ChangeColor(Initial, hex).recentColors;
    assert |r| == 5;
    assert r == (Initial.recentColors + [hex])[1..];
  }

  /** After five or more picks the recent colours are the last five picks,
      in the order they were made. */
  lemma RecentColorsAreLastPicks(st: EditState, hexes: seq<Color>)
    requires |hexes| >= RecentCapacity
    ensures ChangeColors(st, hexes).recentColors == hexes[|hexes| - RecentCapacity..]
  {
    ChangeColorsFifo(st, hexes);
    var u := st.recentColors + hexes;
    assert u[|u| - RecentCapacity..] == hexes[|hexes| - RecentCapacity..];
  }
}
