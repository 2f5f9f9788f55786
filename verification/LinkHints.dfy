/** Keyboard labels for links (frontend/src/composables/useNoteLinkSearch.js). */
module LinkHints {

  const DIGITS := "1234567890"

  function Letter(r: nat): char
    requires r < 26
  {
    'A' + r as char
  }

  /** Bijective base 26: A to Z, AA to ZZ, and so on; zero has no letters. */
  function Alpha(value: nat): string {
    if value == 0 then "" else Alpha((value - 1) / 26) + [Letter((value - 1) % 26)]
  }

  function Label(index: nat): string {
    if index < |DIGITS| then [DIGITS[index]]
    else
      var offset := index - |DIGITS|;
      Alpha(offset / |DIGITS| + 1) + [DIGITS[offset % |DIGITS|]]
  }

  predicate IsLetter(c: char) {
    'A' <= c <= 'Z'
  }

  lemma {:induction false} AlphaIsLetters(value: nat)
    ensures forall i | 0 <= i < |Alpha(value)| :: IsLetter(Alpha(value)[i])
  {
    if value > 0 { AlphaIsLetters((value - 1) / 26); }
  }

  lemma {:induction false} AlphaIsInjective(a: nat, b: nat)
    requires Alpha(a) == Alpha(b)
    ensures a == b
  {
    if a > 0 && b > 0 {
      var x, y := Alpha((a - 1) / 26), Alpha((b - 1) / 26);
      assert Alpha(a)[..|Alpha(a)| - 1] == x && Alpha(b)[..|Alpha(b)| - 1] == y;
      assert Alpha(a)[|Alpha(a)| - 1] == Letter((a - 1) % 26) && Alpha(b)[|Alpha(b)| - 1] == Letter((b - 1) % 26);
      AlphaIsInjective((a - 1) / 26, (b - 1) / 26);
    }
  }

  /** A label is letters and then one digit. */
  lemma {:induction false} LabelShape(index: nat)
    ensures Label(index) == Alpha(index / 10) + [DIGITS[index % 10]]
  {
    if index < 10 {
      assert index / 10 == 0 && index % 10 == index;
      assert Alpha(0) + [DIGITS[index]] == [DIGITS[index]];
    } else {
      assert (index - 10) / 10 + 1 == index / 10 && (index - 10) % 10 == index % 10;
    }
  }

  /** The number that letters spell in bijective base 26, A standing for one. */
  function Spelled(letters: string): nat
    requires forall i | 0 <= i < |letters| :: IsLetter(letters[i])
  {
    if letters == "" then 0
    else
      var n := |letters| - 1;
      assert IsLetter(letters[n]);
      26 * Spelled(letters[..n]) + (letters[n] as int - 'A' as int + 1)
  }

  lemma {:induction false} AlphaSpells(value: nat)
    ensures (forall i | 0 <= i < |Alpha(value)| :: IsLetter(Alpha(value)[i])) && Spelled(Alpha(value)) == value
  {
    AlphaIsLetters(value);
    if value > 0 {
      var n := |Alpha(value)| - 1;
      AlphaSpells((value - 1) / 26);
      assert Alpha(value)[..n] == Alpha((value - 1) / 26);
    }
  }

  /** Read back, a label gives its link: the letters count the tens, and the digits run from 1 up to 9 and then 0. */
  lemma {:induction false} LabelSpells(index: nat)
    ensures var letters, digit := Label(index)[..|Label(index)| - 1], Label(index)[|Label(index)| - 1];
      && (forall i | 0 <= i < |letters| :: IsLetter(letters[i]))
      && '0' <= digit <= '9'
      && index == 10 * Spelled(letters) + if digit == '0' then 9 else digit as int - '1' as int
  {
    LabelShape(index);
    AlphaSpells(index / 10);
    assert Label(index)[..|Label(index)| - 1] == Alpha(index / 10);
  }

  lemma {:induction false} DigitsDiffer(i: nat, j: nat)
    requires i < 10 && j < 10
    ensures !IsLetter(DIGITS[i]) && (DIGITS[i] == DIGITS[j] <==> i == j)
  {
  }

  /**
   * No label begins another: typing one label to its end never leaves two links
   * in play, and different links have different labels.
   */
  lemma {:induction false} LabelsArePrefixFree(i: nat, j: nat)
    ensures Label(i) <= Label(j) <==> i == j
  {
    LabelShape(i);
    LabelShape(j);
    if Label(i) <= Label(j) {
      var n := |Alpha(i / 10)|;
      assert Label(j)[n] == Label(i)[n] == DIGITS[i % 10];
      DigitsDiffer(i % 10, j % 10);
      AlphaIsLetters(j / 10);
      assert n == |Alpha(j / 10)|;
      assert Alpha(i / 10) == Label(i)[..n] == Label(j)[..n] == Alpha(j / 10);
      AlphaIsInjective(i / 10, j / 10);
    }
  }

  method LinkHintAlphaPrefix(index: nat) returns (hint: string)
    ensures hint == Alpha(index + 1)
  {
    var value: nat := index + 1;
    hint := "";
    assert Alpha(value) + "" == Alpha(value);
    while value > 0
      invariant Alpha(value) + hint == Alpha(index + 1)
    {
      var remainder := (value - 1) % 26;
      assert Alpha((value - 1) / 26) + ([Letter(remainder)] + hint) == Alpha((value - 1) / 26) + [Letter(remainder)] + hint;
      hint := [Letter(remainder)] + hint;
      value := (value - 1) / 26;
    }
    assert Alpha(0) + hint == hint;
  }

  method LinkHintLabelForIndex(index: nat) returns (hint: string)
    ensures hint == Label(index)
  {
    if index < |DIGITS| { return [DIGITS[index]]; }
    var offset := index - |DIGITS|;
    var prefix := LinkHintAlphaPrefix(offset / |DIGITS|);
    hint := prefix + [DIGITS[offset % |DIGITS|]];
  }
}
