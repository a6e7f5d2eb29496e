/**
 * The text of one log line as far as the rendered-line buffer uses it: the
 * buffer only asks a line whether it contains a search needle. The search is
 * literal, case-sensitive substring containment (an empty needle is contained
 * in every line).
 */
module Lines {

  datatype Line = Line(text: string) {

    /** Whether `needle` occurs in the line's text. */
    predicate Contains(needle: string) {
      HasSubstring(text, needle)
    }
  }

  /** `needle` occurs in `s`, tested by sliding the start over `s`. */
  predicate HasSubstring(s: string, needle: string)
    decreases |s|
  {
    needle <= s || (|s| > 0 && HasSubstring(s[1..], needle))
  }

  /** `needle` occurs in `s` starting at position `i`. */
  predicate OccursAt(s: string, needle: string, i: nat) {
    i + |needle| <= |s| && s[i..i + |needle|] == needle
  }

  /** Dropping the first character moves every occurrence one place left. */
  lemma OccursShift(s: string, needle: string, i: nat)
    requires |s| > 0
    ensures OccursAt(s[1..], needle, i) <==> OccursAt(s, needle, i + 1)
  {
    if i + 1 + |needle| <= |s| {
      assert s[1..][i..i + |needle|] == s[i + 1..i + 1 + |needle|];
    }
  }

  /** The sliding test finds exactly the positions where the needle occurs. */
  lemma {:induction false} HasSubstringIffOccurs(s: string, needle: string)
    ensures HasSubstring(s, needle) <==> exists i: nat :: OccursAt(s, needle, i)
    decreases |s|
  {
    if needle <= s {
      assert OccursAt(s, needle, 0);
    } else if |s| > 0 {
      HasSubstringIffOccurs(s[1..], needle);
      if HasSubstring(s[1..], needle) {
        var i: nat :| OccursAt(s[1..], needle, i);
        OccursShift(s, needle, i);
      } else {
        forall i: nat | OccursAt(s, needle, i)
          ensures false
        {
          assert i != 0;
          OccursShift(s, needle, i - 1);
        }
      }
    }
  }
}
