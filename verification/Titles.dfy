/** The one rule for titles: drop what must never reach a terminal, then trim. */
module Titles {

  /** Control characters: C0, DEL and C1. */
  predicate IsControl(c: char) {
    c <= '\U{001F}' || '\U{007F}' <= c <= '\U{009F}'
  }

  /** Code points that render as nothing, but for the joiner and the two presentation selectors. */
  predicate IsDefaultIgnorable(c: char) {
    && c != '\U{200D}' && c != '\U{FE0E}' && c != '\U{FE0F}'
    && (|| c == '\U{00AD}' || c == '\U{034F}'
        || '\U{115F}' <= c <= '\U{1160}' || '\U{17B4}' <= c <= '\U{17B5}' || '\U{180B}' <= c <= '\U{180F}'
        || '\U{200B}' <= c <= '\U{200F}' || '\U{202A}' <= c <= '\U{202E}' || '\U{2060}' <= c <= '\U{206F}'
        || c == '\U{3164}' || '\U{FE00}' <= c <= '\U{FE0F}' || c == '\U{FEFF}' || c == '\U{FFA0}'
        || '\U{FFF0}' <= c <= '\U{FFF8}' || '\U{1BCA0}' <= c <= '\U{1BCA3}'
        || '\U{1D173}' <= c <= '\U{1D17A}' || '\U{E0000}' <= c <= '\U{E0FFF}')
  }

  /** Characters that `Sanitize` strips: they could move the cursor, reorder the line or hide in it. */
  predicate IsHostile(c: char) {
    || IsControl(c) || c == '\U{2028}' || c == '\U{2029}'
    || '\U{202A}' <= c <= '\U{202E}' || '\U{2066}' <= c <= '\U{2069}'
    || c == '\U{200E}' || c == '\U{200F}' || c == '\U{061C}' || IsDefaultIgnorable(c)
  }

  predicate IsSpace(c: char) {
    || '\U{0009}' <= c <= '\U{000D}' || c == ' ' || c == '\U{0085}' || c == '\U{00A0}' || c == '\U{1680}'
    || '\U{2000}' <= c <= '\U{200A}' || c == '\U{2028}' || c == '\U{2029}' || c == '\U{202F}' || c == '\U{205F}'
    || c == '\U{3000}'
  }

  function Harmless(s: string): string {
    if s == "" then "" else (if IsHostile(s[0]) then "" else [s[0]]) + Harmless(s[1..])
  }

  function TrimFront(s: string): string {
    if s != "" && IsSpace(s[0]) then TrimFront(s[1..]) else s
  }

  function TrimBack(s: string): string {
    if s != "" && IsSpace(s[|s| - 1]) then TrimBack(s[..|s| - 1]) else s
  }

  function Sanitize(raw: string): string {
    TrimBack(TrimFront(Harmless(raw)))
  }

  const MAX_TITLE_CHARS: nat := 64

  /** `Sanitize`, cut to what a pane's border has room for. */
  function SanitizeClamped(raw: string): string {
    var clean := Sanitize(raw);
    if |clean| <= MAX_TITLE_CHARS then clean else clean[..MAX_TITLE_CHARS]
  }

  /** No hostile character, and no space at either end. */
  predicate IsClean(s: string) {
    && (forall i :: 0 <= i < |s| ==> !IsHostile(s[i]))
    && (s != "" ==> !IsSpace(s[0]) && !IsSpace(s[|s| - 1]))
  }

  lemma {:induction false} HarmlessDrops(s: string)
    ensures forall i :: 0 <= i < |Harmless(s)| ==> !IsHostile(Harmless(s)[i])
    ensures (forall i :: 0 <= i < |s| ==> !IsHostile(s[i])) ==> Harmless(s) == s
  {
    hide IsHostile;
    if s != "" {
      HarmlessDrops(s[1..]);
      assert s == [s[0]] + s[1..];
    }
  }

  lemma {:induction false} TrimFrontTrims(s: string)
    ensures |TrimFront(s)| <= |s| && TrimFront(s) == s[|s| - |TrimFront(s)|..]
    ensures TrimFront(s) != "" ==> !IsSpace(TrimFront(s)[0])
  {
    hide IsSpace;
    if s != "" && IsSpace(s[0]) {
      TrimFrontTrims(s[1..]);
    }
  }

  lemma {:induction false} TrimBackTrims(s: string)
    ensures |TrimBack(s)| <= |s| && TrimBack(s) == s[..|TrimBack(s)|]
    ensures TrimBack(s) != "" ==> !IsSpace(TrimBack(s)[|TrimBack(s)| - 1])
  {
    hide IsSpace;
    if s != "" && IsSpace(s[|s| - 1]) {
      TrimBackTrims(s[..|s| - 1]);
    }
  }

  /** Sanitizing yields a clean title and leaves a clean one alone, so doing it twice is doing it once. */
  lemma SanitizeIsClean(raw: string)
    ensures IsClean(Sanitize(raw))
    ensures IsClean(raw) ==> Sanitize(raw) == raw
    ensures Sanitize(Sanitize(raw)) == Sanitize(raw)
  {
    CleanAfter(raw);
    CleanStays(raw);
    CleanStays(Sanitize(raw));
  }

  /** Nothing but hostile characters and outer spaces is lost, and the rest stays in order. */
  lemma SanitizeKeepsTheRest(raw: string)
    ensures exists before, after ::
              && Harmless(raw) == before + Sanitize(raw) + after
              && (forall i :: 0 <= i < |before| ==> IsSpace(before[i]))
              && (forall i :: 0 <= i < |after| ==> IsSpace(after[i]))
  {
    hide IsHostile, IsSpace, Harmless;
    var h := Harmless(raw);
    var front := TrimFront(h);
    TrimFrontTakesSpaces(h);
    TrimBackTakesSpaces(front);
    var (before, after) := (h[..|h| - |front|], front[|TrimBack(front)|..]);
    assert h == before + front && front == TrimBack(front) + after;
    assert Harmless(raw) == before + Sanitize(raw) + after;
  }

  lemma {:induction false} TrimFrontTakesSpaces(s: string)
    ensures |TrimFront(s)| <= |s| && TrimFront(s) == s[|s| - |TrimFront(s)|..]
    ensures forall i :: 0 <= i < |s| - |TrimFront(s)| ==> IsSpace(s[i])
  {
    hide IsSpace;
    if s != "" && IsSpace(s[0]) {
      TrimFrontTakesSpaces(s[1..]);
    }
  }

  lemma {:induction false} TrimBackTakesSpaces(s: string)
    ensures |TrimBack(s)| <= |s| && TrimBack(s) == s[..|TrimBack(s)|]
    ensures forall i :: |TrimBack(s)| <= i < |s| ==> IsSpace(s[i])
  {
    hide IsSpace;
    if s != "" && IsSpace(s[|s| - 1]) {
      TrimBackTakesSpaces(s[..|s| - 1]);
    }
  }

  /** Hostile characters are dropped one by one, wherever they stand. */
  lemma {:induction false} HarmlessIsPiecewise(r: string, s: string)
    ensures Harmless(r + s) == Harmless(r) + Harmless(s)
    ensures |r| == 1 ==> Harmless(r) == if IsHostile(r[0]) then "" else r
  {
    hide IsHostile;
    if r == "" {
      assert r + s == s;
    } else {
      assert (r + s)[1..] == r[1..] + s;
      HarmlessIsPiecewise(r[1..], s);
    }
  }

  lemma CleanAfter(raw: string)
    ensures IsClean(Sanitize(raw))
  {
    hide IsHostile, IsSpace, TrimFront, TrimBack, Harmless;
    var h := Harmless(raw);
    HarmlessDrops(raw);
    TrimFrontTrims(h);
    TrimBackTrims(TrimFront(h));
  }

  lemma CleanStays(raw: string)
    ensures IsClean(raw) ==> Sanitize(raw) == raw
  {
    hide IsHostile, IsSpace;
    HarmlessDrops(raw);
  }

  /** Clamping twice differs from clamping once exactly when the cut leaves a space at the end. */
  lemma ClampedTwice(raw: string)
    ensures var clean := Sanitize(raw);
            SanitizeClamped(SanitizeClamped(raw)) == SanitizeClamped(raw) <==>
            |clean| <= MAX_TITLE_CHARS || !IsSpace(clean[MAX_TITLE_CHARS - 1])
  {
    SanitizeIsClean(raw);
    hide IsHostile, IsSpace;
    var clean := Sanitize(raw);
    if |clean| > MAX_TITLE_CHARS {
      var cut := clean[..MAX_TITLE_CHARS];
      CleanStays(cut);
      CleanAfter(cut);
      SanitizeShrinks(cut);
    }
  }

  /**
   63 letters, a space and one letter more: the cut after 64 characters ends in the space, which a second pass trims.
   */
  lemma ClampedTwiceDiffers()
    ensures var raw := seq(63, _ => 'a') + " b";
            && SanitizeClamped(raw) == seq(63, _ => 'a') + " "
            && SanitizeClamped(SanitizeClamped(raw)) != SanitizeClamped(raw)
  {
    var raw := seq(63, _ => 'a') + " b";
    assert !IsHostile('a') && !IsHostile(' ') && !IsHostile('b') && !IsSpace('a') && !IsSpace('b') && IsSpace(' ');
    hide IsHostile, IsSpace, Sanitize;
    assert forall i :: 0 <= i < |raw| ==> raw[i] == 'a' || raw[i] == ' ' || raw[i] == 'b';
    SanitizeIsClean(raw);
    assert raw[..MAX_TITLE_CHARS] == seq(63, _ => 'a') + " ";
    ClampedTwice(raw);
  }

  lemma SanitizeShrinks(raw: string)
    ensures |Sanitize(raw)| <= |raw|
  {
    HarmlessShrinks(raw);
    TrimFrontTrims(Harmless(raw));
    TrimBackTrims(TrimFront(Harmless(raw)));
  }

  lemma {:induction false} HarmlessShrinks(s: string)
    ensures |Harmless(s)| <= |s|
  {
    if s != "" {
      HarmlessShrinks(s[1..]);
    }
  }

  /** All digits: as a selector this counts windows, so it cannot serve as a title. */
  predicate IsWindowNumber(s: string) {
    s != "" && forall i :: 0 <= i < |s| ==> '0' <= s[i] <= '9'
  }

  const MAX_WINDOW_TITLE_CHARS: nat := 128

  /** What every stored window title satisfies. */
  predicate IsWindowTitle(t: string) {
    IsClean(t) && 1 <= |t| <= MAX_WINDOW_TITLE_CHARS && !IsWindowNumber(t)
  }
}
