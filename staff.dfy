/** The note-name pattern of assets/staff.js, `/[A-G](#{1,2}|b{1,2}|n)?/`,
    and `getAccidental`, which pulls the accidental out of a note name. The
    regular expression is unanchored and has no flags: JavaScript tries each
    start position from the left, and the first position holding an
    upper-case letter A to G gives the match, because the optional group can
    always match the empty string. */
module Staff {
  import opened Base

  predicate IsNoteLetter(c: char) {
    'A' <= c <= 'G'
  }

  /** The texts the group `(#{1,2}|b{1,2}|n)` can match. */
  const AccidentalTexts: seq<string> := ["##", "#", "bb", "b", "n"]

  /** The group after the letter, which ends at index `i - 1`. Each
      alternative's quantifier is greedy and stops at two; the alternatives
      start with different characters, so at most one applies. The result is
      the longest text of the group that starts the rest of the name, or
      `None` (the group did not take part: `undefined`). */
  function AccidentalAt(s: string, i: nat): (r: Option<string>)
    requires i <= |s|
    ensures r.Some? ==> r.value in AccidentalTexts && IsPrefix(r.value, s[i..])
    ensures r.Some? ==> forall j :: 0 <= j < |AccidentalTexts| && IsPrefix(AccidentalTexts[j], s[i..]) ==>
      |AccidentalTexts[j]| <= |r.value|
    ensures r.None? <==> forall j :: 0 <= j < |AccidentalTexts| ==> !IsPrefix(AccidentalTexts[j], s[i..])
  {
    if i < |s| && s[i] == '#' then
      Some(if i + 1 < |s| && s[i + 1] == '#' then "##" else "#")
    else if i < |s| && s[i] == 'b' then
      Some(if i + 1 < |s| && s[i + 1] == 'b' then "bb" else "b")
    else if i < |s| && s[i] == 'n' then
      Some("n")
    else
      None
  }

  /** The leftmost start position at or after `from` where the pattern
      matches: the first note letter. */
  function FirstNoteLetter(s: string, from: nat): (r: Option<nat>)
    requires from <= |s|
    ensures r.Some? ==> from <= r.value < |s| && IsNoteLetter(s[r.value])
    ensures r.Some? ==> forall k :: from <= k < r.value ==> !IsNoteLetter(s[k])
    ensures r.None? ==> forall k :: from <= k < |s| ==> !IsNoteLetter(s[k])
    decreases |s| - from
  {
    if from == |s| then None
    else if IsNoteLetter(s[from]) then Some(from)
    else FirstNoteLetter(s, from + 1)
  }

  /** What `getAccidental` does: `NoMatch` when `match` returns null and the
      destructuring throws a TypeError; otherwise the capture group, where
      `None` stands for `undefined`. */
  datatype AccidentalMatch = NoMatch | Matched(accidental: Option<string>)

  /** `getAccidental`: the accidental right after the leftmost note letter;
      characters before that letter are skipped, and only the characters
      immediately after it count. */
  function GetAccidental(noteName: string): (r: AccidentalMatch)
    ensures r == NoMatch <==> forall k :: 0 <= k < |noteName| ==> !IsNoteLetter(noteName[k])
    ensures r.Matched? ==>
      exists k :: && 0 <= k < |noteName| && IsNoteLetter(noteName[k])
                  && (forall j :: 0 <= j < k ==> !IsNoteLetter(noteName[j]))
                  && r.accidental == AccidentalAt(noteName, k + 1)
    ensures r.Matched? && r.accidental.Some? ==> r.accidental.value in AccidentalTexts
  {
    match FirstNoteLetter(noteName, 0)
    case None => NoMatch
    case Some(k) => Matched(AccidentalAt(noteName, k + 1))
  }

  /** Greedy quantifiers, capped at two. */
  lemma GreedySharps()
    ensures GetAccidental("C##") == Matched(Some("##"))
    ensures GetAccidental("C###") == Matched(Some("##"))
  {
  }

  lemma GreedyFlats()
    ensures GetAccidental("Cbb") == Matched(Some("bb"))
    ensures GetAccidental("Bb4") == Matched(Some("b"))
  {
  }

  /** Only the characters right after the letter count. */
  lemma AdjacentExamples()
    ensures GetAccidental("C") == Matched(None)
    ensures GetAccidental("C x#") == Matched(None)
    ensures GetAccidental("c#/4") == NoMatch
  {
  }

  /** The first alternative that applies is kept, after the leftmost letter. */
  lemma FirstAlternativeExamples()
    ensures GetAccidental("Cb#") == Matched(Some("b"))
    ensures GetAccidental("x F#") == Matched(Some("#"))
  {
  }

  /** What the `Staff` constructor does with the accidental, once the VexFlow
      calls before it have succeeded: it throws with no note letter, and
      otherwise adds a VexFlow accidental modifier exactly when
      `getAccidental` gave a (non-empty, hence truthy) text. */
  datatype StaffNote = Throws | Drawn(modifier: Option<string>)

  function StaffAccidental(noteName: string): (r: StaffNote)
    ensures r == Throws <==> GetAccidental(noteName) == NoMatch
    ensures r.Drawn? ==> r.modifier == GetAccidental(noteName).accidental
    ensures r.Drawn? && r.modifier.Some? ==> r.modifier.value != ""
  {
    match GetAccidental(noteName)
    case NoMatch => Throws
    case Matched(acc) =>
      if acc.Some? && acc.value != "" then Drawn(acc) else Drawn(None)
  }
}
