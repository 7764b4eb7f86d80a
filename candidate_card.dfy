/**
 * The candidate card's avatar: the candidate's initials, and a colour
 * picked from a fixed list by a hash of the candidate's name, so that the
 * same name always gets the same colour.
 */
module CandidateCard {
  import opened JsString

  // ------------------------------------------------------------ initials

  /** The first character of each part, empty parts giving nothing. */
  function FirstChars(parts: seq<string>): (r: string)
    ensures |r| <= |parts|
    ensures (forall i :: 0 <= i < |parts| ==> parts[i] != []) ==> |r| == |parts|
  {
    if parts == [] then []
    else (if parts[0] == [] then [] else [parts[0][0]]) + FirstChars(parts[1..])
  }

  /** `name.split(' ').map(part => part[0]).join('').toUpperCase()`. */
  function Initials(name: string): (r: string)
    ensures |r| <= Count(name, ' ') + 1
  {
    Upper(FirstChars(Split(name, ' ')))
  }

  /** A name made only of spaces, the empty name included, has no initials;
      any other name has at least one. */
  lemma {:induction false} InitialsEmpty(name: string)
    ensures Initials(name) == [] <==> forall i :: 0 <= i < |name| ==> name[i] == ' '
  {
    if name != [] {
      InitialsEmpty(name[1..]);
      var rest := Split(name[1..], ' ');
      if name[0] == ' ' {
        assert Split(name, ' ') == [[]] + rest;
        assert ([[]] + rest)[1..] == rest;
      } else {
        assert Split(name, ' ')[0] == [name[0]] + rest[0];
      }
      forall i | 1 <= i < |name| ensures name[i] == name[1..][i - 1] {
      }
    }
  }

  /** The words of a name separated by single spaces each give one initial,
      the upper-case form of the word's first character. */
  lemma {:induction false} InitialsOfWords(words: seq<string>)
    requires |words| >= 1
    requires forall k :: 0 <= k < |words| ==> words[k] != [] && ' ' !in words[k]
    ensures Initials(Join(words, " ")) == seq(|words|, k requires 0 <= k < |words| => UpperChar(words[k][0]))
  {
    SplitJoin(words, ' ');
    assert Join(words, [' ']) == Join(words, " ");
    FirstCharsOfWords(words);
  }

  lemma {:induction false} FirstCharsOfWords(words: seq<string>)
    requires forall k :: 0 <= k < |words| ==> words[k] != []
    ensures FirstChars(words) == seq(|words|, k requires 0 <= k < |words| => words[k][0])
  {
    if words != [] {
      FirstCharsOfWords(words[1..]);
    }
  }

  // --------------------------------------------------------- avatar colour

  /** The avatar colours. */
  const AVATAR_COLORS: seq<string> := [
    "#f44336", "#e91e63", "#9c27b0", "#673ab7",
    "#3f51b5", "#2196f3", "#03a9f4", "#00bcd4",
    "#009688", "#4caf50", "#8bc34a", "#cddc39",
    "#ffeb3b", "#ffc107", "#ff9800", "#ff5722"]

  const TWO_32: int := 0x1_0000_0000
  const TWO_31: int := 0x8000_0000

  /** The UTF-16 code units of a string: one for a character below U+10000,
      a surrogate pair for any other. */
  function Utf16(s: string): (u: seq<int>)
    ensures |u| >= |s|
    ensures forall k :: 0 <= k < |u| ==> 0 <= u[k] < 0x1_0000
  {
    if s == [] then []
    else
      var c := s[0] as int;
      var units :=
        if c < 0x1_0000 then [c]
        else [0xD800 + (c - 0x1_0000) / 0x400, 0xDC00 + (c - 0x1_0000) % 0x400];
      units + Utf16(s[1..])
  }

  /** A whole number taken modulo 2^32 into the signed 32-bit range. */
  function ToInt32(x: int): (r: int)
    ensures -TWO_31 <= r < TWO_31
    ensures (r - x) % TWO_32 == 0
  {
    var m := x % TWO_32;
    if m >= TWO_31 then m - TWO_32 else m
  }

  /** `hash << 5`: the shift works on the signed 32-bit form of the hash
      and its result is again a signed 32-bit number. */
  function ShiftLeft5(h: int): (r: int)
    ensures -TWO_31 <= r < TWO_31
  {
    ToInt32(h * 32)
  }

  /** The hash of a list of code units: starting at 0, each unit `c` turns
      the hash `h` into `c + ((h << 5) - h)`. The subtraction and addition
      are exact. */
  function Hash(units: seq<int>): int {
    if units == [] then 0
    else
      var h := Hash(units[..|units| - 1]);
      units[|units| - 1] + (ShiftLeft5(h) - h)
  }

  function Abs(x: int): nat {
    if x < 0 then -x else x
  }

  /** The colour of a name: the entry at |hash| modulo 16. */
  function ColorOf(name: string): (c: string)
    ensures c in AVATAR_COLORS
    ensures name == [] ==> c == "#f44336"
  {
    AVATAR_COLORS[Abs(Hash(Utf16(name))) % |AVATAR_COLORS|]
  }

  /** Each unit moves the hash by less than 2^31 + 2^16, so over fewer than
      2^21 units the hash stays within the 2^53 range where a JavaScript
      number holds whole numbers exactly. */
  lemma {:induction false} HashBound(units: seq<int>)
    requires forall k :: 0 <= k < |units| ==> 0 <= units[k] < 0x1_0000
    ensures Abs(Hash(units)) <= |units| * (TWO_31 + 0x1_0000)
  {
    if units != [] {
      var init := units[..|units| - 1];
      HashBound(init);
    }
  }

  /** `getAvatarColor(name)`: the hash is built up one code unit at a time,
      then reduced to an index into the colour list. */
  method AvatarColor(name: string) returns (color: string)
    ensures color == ColorOf(name)
    ensures color in AVATAR_COLORS
  {
    var units := Utf16(name);
    var hash := 0;
    var i := 0;
    while i < |units|
      invariant 0 <= i <= |units|
      invariant hash == Hash(units[..i])
    {
      assert units[..i + 1][..i] == units[..i];
      hash := units[i] + (ShiftLeft5(hash) - hash);
      i := i + 1;
    }
    assert units[..|units|] == units;
    var index := (if hash < 0 then -hash else hash) % |AVATAR_COLORS|;
    color := AVATAR_COLORS[index];
  }
}
