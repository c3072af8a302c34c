/** `getInitials`, written identically in ProfileInfo.tsx, Navbar.tsx and
    EditProfileDialog.tsx: split the name on single spaces, take the first
    character of every part, join, upper-case, and keep the first two
    characters. */
module Initials {
  import Text

  /** `s.split(' ')`: the pieces between single spaces. Leading, trailing and
      doubled spaces give empty pieces, and "" gives [""]. */
  function Split(s: string): (r: seq<string>)
    ensures |r| >= 1
    decreases |s|
  {
    if s == [] then [""]
    else if s[0] == ' ' then [""] + Split(s[1..])
    else
      var rest := Split(s[1..]);
      [[s[0]] + rest[0]] + rest[1..]
  }

  /** `parts.join(' ')`, the inverse of `Split`. */
  function JoinSpaces(parts: seq<string>): string
    decreases |parts|
  {
    if parts == [] then ""
    else if |parts| == 1 then parts[0]
    else parts[0] + " " + JoinSpaces(parts[1..])
  }

  /** Splitting loses nothing: joining the pieces with spaces gives the name
      back, and no piece holds a space. */
  lemma {:induction false} SplitRoundTrip(s: string)
    ensures JoinSpaces(Split(s)) == s
    ensures forall i :: 0 <= i < |Split(s)| ==> ' ' !in Split(s)[i]
    decreases |s|
  {
    if s != [] {
      SplitRoundTrip(s[1..]);
      var rest := Split(s[1..]);
      if s[0] == ' ' {
        assert Split(s) == [""] + rest;
        assert JoinSpaces(Split(s)) == "" + " " + JoinSpaces(rest);
        assert s == [' '] + s[1..];
      } else {
        var parts := Split(s);
        assert parts[1..] == rest[1..];
        assert parts[0] == [s[0]] + rest[0];
        forall i | 0 <= i < |parts| ensures ' ' !in parts[i] {
          if i > 0 { assert parts[i] == rest[i]; }
        }
        if |rest| == 1 {
          assert JoinSpaces(parts) == parts[0];
        } else {
          assert JoinSpaces(rest) == rest[0] + " " + JoinSpaces(rest[1..]);
          assert JoinSpaces(parts) == parts[0] + " " + JoinSpaces(rest[1..]);
        }
        assert s == [s[0]] + s[1..];
      }
    }
  }

  /** `.map(part => part[0]).join('')`: an empty piece yields `undefined`,
      which `join` renders as nothing. */
  function FirstChars(parts: seq<string>): string
    decreases |parts|
  {
    if parts == [] then ""
    else (if parts[0] == "" then "" else [parts[0][0]]) + FirstChars(parts[1..])
  }

  /** `.substring(0, 2)`. */
  function TakeTwo(s: string): string {
    if |s| <= 2 then s else s[..2]
  }

  function GetInitials(name: string): string {
    TakeTwo(Text.Upper(FirstChars(Split(name))))
  }

  /** Independent reference: the characters of `s` that are not a space and
      follow a space or (when `atStart`) open the string. */
  function WordStartChars(s: string, atStart: bool): string
    decreases |s|
  {
    if s == [] then ""
    else (if s[0] != ' ' && atStart then [s[0]] else "") + WordStartChars(s[1..], s[0] == ' ')
  }

  lemma {:induction false} FirstCharsAreWordStarts(s: string)
    ensures FirstChars(Split(s)) == WordStartChars(s, true)
    ensures FirstChars(Split(s)[1..]) == WordStartChars(s, false)
    decreases |s|
  {
    if s != [] {
      FirstCharsAreWordStarts(s[1..]);
      var rest := Split(s[1..]);
      if s[0] == ' ' {
        assert Split(s) == [""] + rest;
        assert Split(s)[1..] == rest;
      } else {
        var parts := Split(s);
        assert parts[0] == [s[0]] + rest[0] && parts[1..] == rest[1..];
      }
    }
  }

  /** The initials are the upper-cased first characters of the words, in
      order, at most two of them; so "" and all-space names give "". */
  lemma GetInitialsSpec(name: string)
    ensures GetInitials(name) == TakeTwo(Text.Upper(WordStartChars(name, true)))
    ensures |GetInitials(name)| <= 2
  {
    FirstCharsAreWordStarts(name);
  }

  lemma {:induction false} NoWordStartWithoutWord(s: string, atStart: bool)
    requires forall i :: 0 <= i < |s| ==> s[i] == ' '
    ensures WordStartChars(s, atStart) == ""
    decreases |s|
  {
    if s != [] {
      NoWordStartWithoutWord(s[1..], true);
    }
  }

  /** Only spaces (or nothing) give no initials. */
  lemma BlankNameNoInitials(name: string)
    requires forall i :: 0 <= i < |name| ==> name[i] == ' '
    ensures GetInitials(name) == ""
  {
    FirstCharsAreWordStarts(name);
    NoWordStartWithoutWord(name, true);
  }

  /** A single word gives exactly its upper-cased first character. */
  lemma SingleWordInitial(name: string)
    requires name != [] && ' ' !in name
    ensures GetInitials(name) == [Text.UpperChar(name[0])]
  {
    FirstCharsAreWordStarts(name);
    NoSpaceNoLaterStart(name[1..]);
  }

  lemma {:induction false} NoSpaceNoLaterStart(s: string)
    requires ' ' !in s
    ensures WordStartChars(s, false) == ""
    decreases |s|
  {
    if s != [] {
      assert s[0] != ' ';
      NoSpaceNoLaterStart(s[1..]);
    }
  }

  /** The avatar text of the navigation bar and the edit dialog:
      `name ? getInitials(name) : 'U'`. */
  function AvatarText(name: string): (r: string)
    ensures name == "" ==> r == "U"
    ensures name != "" ==> r == GetInitials(name)
    ensures |r| <= 2
  {
    GetInitialsSpec(name);
    if name != "" then GetInitials(name) else "U"
  }
}
