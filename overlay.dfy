/** The logo overlay coordinates for ffmpeg's `overlay` filter, keyed by corner name,
    each `margin` pixels in from the chosen corner. */
module Overlay {
  import opened Text

  const Margin: nat := 10

  const Corners: set<string> := {"top-left", "top-right", "bottom-left", "bottom-right"}

  /** `get_overlay_position`: a table lookup, falling back to the top-left corner. */
  function OverlayPosition(position: string): (r: string)
    ensures position !in Corners ==> r == NatToString(Margin) + ":" + NatToString(Margin)
  {
    var m := NatToString(Margin);
    var table := Table(m);
    if position in table then table[position] else m + ":" + m
  }

  /** The lookup table, for the margin written as `m`. */
  function Table(m: string): map<string, string>
  {
    map[
      "top-left" := m + ":" + m,
      "top-right" := "main_w-overlay_w-" + m + ":" + m,
      "bottom-left" := m + ":main_h-overlay_h-" + m,
      "bottom-right" := "main_w-overlay_w-" + m + ":main_h-overlay_h-" + m
    ]
  }

  lemma TableEntries(m: string)
    ensures Table(m).Keys == Corners
    ensures "top-left" in Table(m) && "top-right" in Table(m)
    ensures "bottom-left" in Table(m) && "bottom-right" in Table(m)
    ensures Table(m)["top-left"] == m + ":" + m
    ensures Table(m)["top-right"] == "main_w-overlay_w-" + m + ":" + m
    ensures Table(m)["bottom-left"] == m + ":main_h-overlay_h-" + m
    ensures Table(m)["bottom-right"] == "main_w-overlay_w-" + m + ":main_h-overlay_h-" + m
  {
    assert "top-left"[0] != "bottom-left"[0] && "top-left"[4] != "top-right"[4];
    assert "top-right"[0] != "bottom-right"[0] && "bottom-left"[7] != "bottom-right"[7];
    assert "top-left"[0] != "bottom-right"[0] && "top-right"[0] != "bottom-left"[0];
  }

  lemma MarginText()
    ensures NatToString(Margin) == "10"
  {
    assert NatToString(1) == "1";
  }

  /** The top corners sit the margin below the top edge, in from the left or the right. */
  lemma TopCorners()
    ensures OverlayPosition("top-left") == "10:10"
    ensures OverlayPosition("top-right") == "main_w-overlay_w-10:10"
  {
    MarginText();
    TableEntries("10");
  }

  /** The bottom-left corner sits the margin above the bottom edge, in from the left. */
  lemma BottomLeft()
    ensures OverlayPosition("bottom-left") == "10:main_h-overlay_h-10"
  {
    MarginText();
    TableEntries("10");
  }

  /** The bottom-right corner sits the margin above the bottom edge, in from the right. */
  lemma BottomRight()
    ensures OverlayPosition("bottom-right") == "main_w-overlay_w-10:main_h-overlay_h-10"
  {
    MarginText();
    TableEntries("10");
  }

  /** A name that is not a corner gets the top-left coordinates. */
  lemma UnknownPositionFallsBack(position: string)
    requires position !in Corners
    ensures OverlayPosition(position) == OverlayPosition("top-left") == "10:10"
  {
    MarginText();
  }

  /** Two different corners never share coordinates. */
  lemma CornersDistinct(a: string, b: string)
    requires a in Corners && b in Corners && a != b
    ensures OverlayPosition(a) != OverlayPosition(b)
  {
    TopCorners();
    BottomLeft();
    BottomRight();
    assert "10:10"[2] != "main_w-overlay_w-10:10"[2];
    assert "10:10"[3] != "10:main_h-overlay_h-10"[3];
    assert "10:10"[3] != "main_w-overlay_w-10:main_h-overlay_h-10"[3];
    assert "main_w-overlay_w-10:10"[0] != "10:main_h-overlay_h-10"[0];
    assert |"main_w-overlay_w-10:10"| != |"main_w-overlay_w-10:main_h-overlay_h-10"|;
    assert "10:main_h-overlay_h-10"[0] != "main_w-overlay_w-10:main_h-overlay_h-10"[0];
  }
}
