/** The music-theory tables of src/theory.rs: accidentals with their semitone
    offsets, the seven white keys with their distance above C, and the note and
    fret-coordinate records. */
module Theory {
  import opened Base

  datatype Accidental = DoubleFlat | Flat | Natural | Sharp | DoubleSharp

  datatype WhiteKey = C | D | E | F | G | A | B

  /** A note. The Rust record declares a plain `Accidental`, but the round
      constructor in src/game.rs builds a note with `accidental: None`, so the
      field is optional here. */
  datatype Note = Note(whiteKey: WhiteKey, accidental: Option<Accidental>, octave: i32)

  datatype FretCoord = FretCoord(stringNum: i32, fret: i32)

  /** Position of an accidental in declaration order, flattest first. */
  function AccidentalRank(a: Accidental): (r: nat)
    ensures r < 5
  {
    match a
    case DoubleFlat => 0
    case Flat => 1
    case Natural => 2
    case Sharp => 3
    case DoubleSharp => 4
  }

  /** The accidental with the opposite direction (sharp for flat, and so on). */
  function Mirror(a: Accidental): (r: Accidental)
    ensures AccidentalRank(r) == 4 - AccidentalRank(a)
  {
    match a
    case DoubleFlat => DoubleSharp
    case Flat => Sharp
    case Natural => Natural
    case Sharp => Flat
    case DoubleSharp => DoubleFlat
  }

  /** `Accidental::offset`: how many semitones the accidental moves a note.
      Only the natural leaves it in place. */
  function Offset(a: Accidental): (r: i32)
    ensures -2 <= r <= 2
    ensures r == 0 <==> a == Natural
    ensures r < 0 <==> AccidentalRank(a) < 2
  {
    match a
    case DoubleFlat => -2
    case Flat => -1
    case Natural => 0
    case Sharp => 1
    case DoubleSharp => 2
  }

  /** Offsets are strictly increasing in declaration order. */
  lemma OffsetMonotonic(a: Accidental, b: Accidental)
    ensures AccidentalRank(a) < AccidentalRank(b) <==> Offset(a) < Offset(b)
  {
  }

  /** Hence the offset table is injective. */
  lemma OffsetInjective(a: Accidental, b: Accidental)
    ensures Offset(a) == Offset(b) ==> a == b
  {
  }

  /** A flat lowers by exactly as much as the matching sharp raises. */
  lemma OffsetAntisymmetric(a: Accidental)
    ensures Offset(Mirror(a)) == -Offset(a)
  {
  }

  /** Position of a white key in the order C D E F G A B. */
  function KeyRank(k: WhiteKey): (r: nat)
    ensures r < 7
  {
    match k
    case C => 0
    case D => 1
    case E => 2
    case F => 3
    case G => 4
    case A => 5
    case B => 6
  }

  /** The white key one step up; B wraps round to the C of the next octave. */
  function NextKey(k: WhiteKey): (r: WhiteKey)
    ensures KeyRank(r) == (KeyRank(k) + 1) % 7
  {
    match k
    case C => D
    case D => E
    case E => F
    case F => G
    case G => A
    case A => B
    case B => C
  }

  /** `WhiteKey::half_steps_from_c`: semitones from C up to the key within one octave. */
  function HalfStepsFromC(k: WhiteKey): (r: i32)
    ensures 0 <= r <= 11
    ensures r == 0 <==> k == C
  {
    match k
    case C => 0
    case D => 2
    case E => 4
    case F => 5
    case G => 7
    case A => 9
    case B => 11
  }

  /** The table is strictly increasing from C to B. */
  lemma HalfStepsMonotonic(j: WhiteKey, k: WhiteKey)
    ensures KeyRank(j) < KeyRank(k) <==> HalfStepsFromC(j) < HalfStepsFromC(k)
  {
  }

  /** Hence it is injective. */
  lemma HalfStepsInjective(j: WhiteKey, k: WhiteKey)
    ensures HalfStepsFromC(j) == HalfStepsFromC(k) ==> j == k
  {
  }

  /** Neighbouring white keys are a whole tone apart, except E to F (and B up
      to the next C), which are a semitone apart. */
  lemma WhiteKeySteps(k: WhiteKey)
    ensures k != B ==> HalfStepsFromC(NextKey(k)) - HalfStepsFromC(k) == (if k == E then 1 else 2)
    ensures k == B ==> HalfStepsFromC(NextKey(k)) + 12 - HalfStepsFromC(k) == 1
  {
  }
}
