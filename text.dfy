/** String primitives the context detectors and the key function rely on:
    ASCII lower-casing, literal substring search and the clamped window
    `text[max(0, offset - width):offset]` of a Python slice. */
module Text {

  function Min(a: int, b: int): int
  {
    if a <= b then a else b
  }

  predicate IsUpper(c: char)
  {
    'A' <= c <= 'Z'
  }

  /** ASCII lower-casing of one character; every other character is kept. */
  function LowerChar(c: char): (d: char)
    ensures !IsUpper(d)
    ensures !IsUpper(c) ==> d == c
    ensures IsUpper(c) ==> d as int == c as int + 32
  {
    if IsUpper(c) then (c as int + 32) as char else c
  }

  /** `s.lower()`, restricted to ASCII letters. */
  function Lower(s: string): (r: string)
    ensures |r| == |s|
    ensures forall i :: 0 <= i < |s| ==> r[i] == LowerChar(s[i])
  {
    seq(|s|, i requires 0 <= i < |s| => LowerChar(s[i]))
  }

  lemma LowerSlice(s: string, i: nat, j: nat)
    requires i <= j <= |s|
    ensures Lower(s)[i..j] == Lower(s[i..j])
  {
  }

  /** Lower-casing leaves a string unchanged exactly when it has no
      upper-case letter. */
  lemma LowerFixed(s: string)
    ensures Lower(s) == s <==> forall i :: 0 <= i < |s| ==> !IsUpper(s[i])
  {
    if Lower(s) == s {
      forall i | 0 <= i < |s|
        ensures !IsUpper(s[i])
      {
        assert s[i] == Lower(s)[i];
      }
    }
  }

  lemma LowerIdempotent(s: string)
    ensures Lower(Lower(s)) == Lower(s)
  {
  }

  /** `needle` sits in `hay` at position i. */
  ghost predicate OccursAt(needle: string, hay: string, i: nat)
  {
    i + |needle| <= |hay| && hay[i..i + |needle|] == needle
  }

  /** Reference meaning of Python's `needle in hay` on strings. */
  ghost predicate Occurs(needle: string, hay: string)
  {
    exists i: nat :: OccursAt(needle, hay, i)
  }

  /** Literal substring test, scanning candidate positions from `from` on. */
  function ContainsFrom(hay: string, needle: string, from: nat): (b: bool)
    ensures b <==> exists i: nat :: from <= i && OccursAt(needle, hay, i)
    decreases |hay| - from
  {
    if from + |needle| > |hay| then false
    else if hay[from..from + |needle|] == needle then
      assert OccursAt(needle, hay, from);
      true
    else ContainsFrom(hay, needle, from + 1)
  }

  /** `needle in hay`. */
  function Contains(hay: string, needle: string): (b: bool)
    ensures b <==> Occurs(needle, hay)
  {
    ContainsFrom(hay, needle, 0)
  }

  /** Some cue of the list is a substring of `hay`: the `for cue in cues:
      if cue in hay: return ...` scan, which stops at the first hit. */
  function ContainsAny(hay: string, cues: seq<string>): (b: bool)
    ensures b <==> exists c :: c in cues && Occurs(c, hay)
  {
    if cues == [] then false
    else Contains(hay, cues[0]) || ContainsAny(hay, cues[1..])
  }

  /** The Python slice `text[max(0, offset - width):offset]`, clamped
      at both ends the way Python clamps slice bounds. */
  function Window(text: string, offset: nat, width: nat): (w: string)
    ensures |w| <= width
    ensures var hi := Min(offset, |text|); |w| <= hi && w == text[hi - |w|..hi]
    ensures offset <= |text| ==> |w| == Min(offset, width)
  {
    var lo := if offset < width then 0 else offset - width;
    text[Min(lo, |text|)..Min(offset, |text|)]
  }

  /** A window only sees the text before the offset. */
  lemma WindowOfPrefix(t1: string, t2: string, offset: nat, width: nat)
    requires offset <= |t1| && offset <= |t2|
    requires t1[..offset] == t2[..offset]
    ensures Window(t1, offset, width) == Window(t2, offset, width)
  {
    var lo := if offset < width then 0 else offset - width;
    assert Window(t1, offset, width) == t1[..offset][lo..offset];
    assert Window(t2, offset, width) == t2[..offset][lo..offset];
  }
}
