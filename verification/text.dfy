/** Python's `sep.join(parts)` and substring occurrence. */
module Text {

  function Join(parts: seq<string>, sep: string): (r: string)
    ensures parts != [] ==> parts[0] <= r
  {
    if parts == [] then ""
    else if |parts| == 1 then parts[0]
    else parts[0] + sep + Join(parts[1..], sep)
  }

  /** `part` occurs in `text` starting at offset `i`. */
  predicate OccursAt(text: string, part: string, i: int) {
    0 <= i <= |text| - |part| && text[i..i + |part|] == part
  }

  /** Python's `part in text` on strings. */
  ghost predicate Contains(text: string, part: string) {
    exists i :: OccursAt(text, part, i)
  }

  lemma OccursInMiddle(before: string, part: string, after: string)
    ensures Contains(before + part + after, part)
  {
    assert (before + part + after)[|before|..|before| + |part|] == part;
    assert OccursAt(before + part + after, part, |before|);
  }

  /** Text after a prefix still contains what it contained. */
  /** A one-character string occurs in a text exactly when the character does. */
  lemma ContainsChar(text: string, c: char)
    ensures Contains(text, [c]) <==> c in text
  {
    if c in text {
      var i :| 0 <= i < |text| && text[i] == c;
      assert OccursAt(text, [c], i);
    }
    if Contains(text, [c]) {
      var i :| OccursAt(text, [c], i);
      assert text[i] == text[i..i + 1][0];
    }
  }

  lemma ContainsAfterPrefix(before: string, text: string, part: string)
    requires Contains(text, part)
    ensures Contains(before + text, part)
  {
    var i :| OccursAt(text, part, i);
    assert (before + text)[|before| + i..|before| + i + |part|] == text[i..i + |part|];
    assert OccursAt(before + text, part, |before| + i);
  }

  /** Every part shows up in the joined text. */
  lemma {:induction false} JoinContains(parts: seq<string>, sep: string, k: nat)
    requires k < |parts|
    ensures Contains(Join(parts, sep), parts[k])
  {
    if k == 0 {
      assert OccursAt(Join(parts, sep), parts[0], 0);
    } else {
      JoinContains(parts[1..], sep, k - 1);
      ContainsAfterPrefix(parts[0] + sep, Join(parts[1..], sep), parts[k]);
    }
  }

  /** Occurrence is transitive: a part of a part is a part of the whole. */
  lemma ContainsTransitive(text: string, mid: string, part: string)
    requires Contains(text, mid) && Contains(mid, part)
    ensures Contains(text, part)
  {
    var i :| OccursAt(text, mid, i);
    var j :| OccursAt(mid, part, j);
    forall k | 0 <= k < |part| ensures text[i + j..i + j + |part|][k] == part[k] {
      assert part[k] == mid[j + k] == text[i..i + |mid|][j + k];
    }
    assert OccursAt(text, part, i + j);
  }
}
