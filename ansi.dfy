/**
 * _remove_ansi_color_escape_codes: the gmsh log messages with the bold, red, magenta and
 * reset colour escape codes replaced by the empty string, one code after the other, as
 * Python's str.replace does (left to right, without overlaps).
 */
module Ansi {
  const Esc: char := '\U{1b}'
  const Bold: string := [Esc, '[', '1', 'm']
  const Red: string := [Esc, '[', '3', '1', 'm']
  const Magenta: string := [Esc, '[', '3', '5', 'm']
  const Reset: string := [Esc, '[', '0', 'm']

  /** s.replace(pat, ''): every occurrence of pat, found left to right without overlaps, removed. */
  function Erase(s: string, pat: string): (r: string)
    requires |pat| > 0
    ensures |r| <= |s|
    decreases |s|
  {
    if |s| < |pat| then s
    else if s[..|pat|] == pat then Erase(s[|pat|..], pat)
    else [s[0]] + Erase(s[1..], pat)
  }

  /** Removing a pattern only drops characters: the result's characters are among the text's. */
  lemma {:induction false} EraseDropsOnly(s: string, pat: string)
    requires |pat| > 0
    ensures multiset(Erase(s, pat)) <= multiset(s)
    decreases |s|
  {
    if |s| >= |pat| {
      if s[..|pat|] == pat {
        EraseDropsOnly(s[|pat|..], pat);
        assert s == s[..|pat|] + s[|pat|..];
      } else {
        EraseDropsOnly(s[1..], pat);
        assert s == [s[0]] + s[1..];
      }
    }
  }

  /** _remove_ansi_color_escape_codes(message). */
  function RemoveAnsiColorEscapeCodes(message: string): (r: string)
    ensures |r| <= |message|
  {
    Erase(Erase(Erase(Erase(message, Bold), Red), Magenta), Reset)
  }

  /** A text that does not hold the first character of the pattern is left as it is. */
  lemma {:induction false} EraseWithoutFirst(s: string, pat: string)
    requires |pat| > 0 && pat[0] !in s
    ensures Erase(s, pat) == s
    decreases |s|
  {
    if |s| >= |pat| {
      assert s[..|pat|][0] == s[0] != pat[0];
      EraseWithoutFirst(s[1..], pat);
      assert s == [s[0]] + s[1..];
    }
  }

  /**
   * A message without escape characters comes back unchanged; the result is never longer
   * and holds no character the message does not hold.
   */
  lemma RemoveAnsiColorEscapeCodesSpec(message: string)
    ensures |RemoveAnsiColorEscapeCodes(message)| <= |message|
    ensures multiset(RemoveAnsiColorEscapeCodes(message)) <= multiset(message)
    ensures Esc !in message ==> RemoveAnsiColorEscapeCodes(message) == message
  {
    var m1 := Erase(message, Bold);
    var m2 := Erase(m1, Red);
    var m3 := Erase(m2, Magenta);
    EraseDropsOnly(message, Bold);
    EraseDropsOnly(m1, Red);
    EraseDropsOnly(m2, Magenta);
    EraseDropsOnly(m3, Reset);
    if Esc !in message {
      EraseWithoutFirst(message, Bold);
      EraseWithoutFirst(message, Red);
      EraseWithoutFirst(message, Magenta);
      EraseWithoutFirst(message, Reset);
    }
  }

  /** An occurrence at the front is removed and the scan goes on after it. */
  lemma EraseAtFront(pat: string, t: string)
    requires |pat| > 0
    ensures Erase(pat + t, pat) == Erase(t, pat)
  {
    assert (pat + t)[..|pat|] == pat;
    assert (pat + t)[|pat|..] == t;
  }

  /** Text before the first character of the pattern is kept as it is. */
  lemma {:induction false} EraseKeepsPlainFront(a: string, t: string, pat: string)
    requires |pat| > 0 && pat[0] !in a
    ensures Erase(a + t, pat) == a + Erase(t, pat)
    decreases |a|
  {
    if a == [] {
      assert a + t == t;
    } else {
      var s := a + t;
      if |s| >= |pat| {
        assert s[..|pat|][0] == a[0] != pat[0];
        assert Erase(s, pat) == [s[0]] + Erase(s[1..], pat);
        assert s[1..] == a[1..] + t;
        EraseKeepsPlainFront(a[1..], t, pat);
        assert a == [a[0]] + a[1..];
        assert Erase(s, pat) == [a[0]] + (a[1..] + Erase(t, pat));
      } else {
        EraseWithoutFirst(a, pat);
        assert Erase(t, pat) == t;
      }
    }
  }

  /** The first step on a coloured error line: the bold code goes, the red code stays. */
  lemma ColouredLineBoldStep(text: string)
    requires Esc !in text
    ensures Erase(Bold + Red + text + Reset, Bold) == Red + text + Reset
  {
    assert Bold + Red + text + Reset == Bold + (Red + text + Reset);
    EraseAtFront(Bold, Red + text + Reset);
    var rest := "[31m" + text + Reset;
    assert Red + text + Reset == [Esc] + rest;
    EraseMismatch(Esc, rest, Bold);
    EraseMismatch(Esc, "[0m", Bold);
    EraseKeepsPlainFront("[31m" + text, Reset, Bold);
  }

  /** The second step on a coloured error line: the red code goes. */
  lemma ColouredLineRedStep(text: string)
    requires Esc !in text
    ensures Erase(Red + text + Reset, Red) == text + Reset
  {
    assert Red + text + Reset == Red + (text + Reset);
    EraseAtFront(Red, text + Reset);
    EraseKeepsPlainFront(text, Reset, Red);
  }

  /** Where the pattern does not start at the first character, that character is kept. */
  lemma EraseMismatch(c: char, t: string, pat: string)
    requires |pat| > 2 && |t| >= |pat| - 1 && t[1] != pat[2]
    ensures Erase([c] + t, pat) == [c] + Erase(t, pat)
  {
    var s := [c] + t;
    assert s[..|pat|][2] == t[1];
    assert s[1..] == t;
  }

  /** The last two steps on a coloured error line: the magenta code, then the reset code. */
  lemma ColouredLineLastSteps(text: string)
    requires Esc !in text
    ensures Erase(text + Reset, Magenta) == text + Reset
    ensures Erase(text + Reset, Reset) == text
  {
    EraseKeepsPlainFront(text, Reset, Magenta);
    EraseKeepsPlainFront(text, Reset, Reset);
    EraseAtFront(Reset, []);
    assert Reset + [] == Reset;
  }

  /** A coloured error line loses its codes and keeps its text. */
  lemma RemovesColours(text: string)
    requires Esc !in text
    ensures RemoveAnsiColorEscapeCodes(Bold + Red + text + Reset) == text
  {
    ColouredLineBoldStep(text);
    ColouredLineRedStep(text);
    ColouredLineLastSteps(text);
  }

  /** pat occurs in s at position i. */
  predicate OccursAt(s: string, pat: string, i: nat)
  {
    i + |pat| <= |s| && s[i..i + |pat|] == pat
  }

  /** A text with no occurrence of the pattern at any position is left as it is. */
  lemma {:induction false} EraseNoOccurrence(s: string, pat: string)
    requires |pat| > 0
    requires forall i: nat :: !OccursAt(s, pat, i)
    ensures Erase(s, pat) == s
    decreases |s|
  {
    if |s| >= |pat| {
      assert !OccursAt(s, pat, 0);
      forall i: nat
        ensures !OccursAt(s[1..], pat, i)
      {
        assert !OccursAt(s, pat, i + 1);
        if i + |pat| <= |s[1..]| {
          assert s[1..][i..i + |pat|] == s[i + 1..i + 1 + |pat|];
        }
      }
      EraseNoOccurrence(s[1..], pat);
      assert s == [s[0]] + s[1..];
    }
  }

  /** The bold, red and magenta codes do not occur in the text RemovalCanFormCode starts from. */
  lemma NotInJoinedText(pat: string)
    requires |pat| >= 4 && pat[0] == Esc && pat[2] != Esc && pat[2] != '0'
    ensures forall i: nat :: !OccursAt([Esc, '['] + Reset + "1m", pat, i)
  {
    var s := [Esc, '['] + Reset + "1m";
    assert s == [Esc, '[', Esc, '[', '0', 'm', '1', 'm'];
    forall i: nat
      ensures !OccursAt(s, pat, i)
    {
      if i + |pat| <= |s| {
        if s[i] != Esc {
          assert s[i..i + |pat|][0] != pat[0];
        } else {
          assert s[i..i + |pat|][2] != pat[2];
        }
      }
    }
  }

  /**
   * The codes are removed one after the other, so removing a later code can join the parts
   * of an earlier one: the result may still hold a code, and a second call changes it.
   */
  lemma RemovalCanFormCode()
    ensures var s := [Esc, '['] + Reset + "1m";
            && RemoveAnsiColorEscapeCodes(s) == Bold
            && RemoveAnsiColorEscapeCodes(RemoveAnsiColorEscapeCodes(s)) == []
  {
    var s := [Esc, '['] + Reset + "1m";
    NotInJoinedText(Bold);
    NotInJoinedText(Red);
    NotInJoinedText(Magenta);
    EraseNoOccurrence(s, Bold);
    EraseNoOccurrence(s, Red);
    EraseNoOccurrence(s, Magenta);
    ResetJoinsBold();
    BoldAlone();
  }

  /** Removing the reset code from the joined text leaves the bold code. */
  lemma ResetJoinsBold()
    ensures Erase([Esc, '['] + Reset + "1m", Reset) == Bold
  {
    var s := [Esc, '['] + Reset + "1m";
    assert s[..|Reset|] != Reset by {
      assert s[..|Reset|][2] != Reset[2];
    }
    assert s[1..] == "[" + (Reset + "1m");
    EraseKeepsPlainFront("[", Reset + "1m", Reset);
    EraseAtFront(Reset, "1m");
    assert Erase("1m", Reset) == "1m";
  }

  /** The bold code alone is removed entirely. */
  lemma BoldAlone()
    ensures RemoveAnsiColorEscapeCodes(Bold) == []
  {
    EraseAtFront(Bold, []);
    assert Bold + [] == Bold;
  }
}
