/** The avatar initials of the settings page and of the navigation bar, which share the same
    `getInitials`: `name.split(' ').map(n => n[0]).join('').toUpperCase()`. An empty piece has no
    first character, `undefined`, which `join` writes as nothing. */
module Initials {
  import opened Text

  /** `parts.map(n => n[0]).join('')`. */
  function FirstChars(parts: seq<string>): string {
    if parts == [] then ""
    else (if parts[0] == "" then "" else [parts[0][0]]) + FirstChars(parts[1..])
  }

  /** `getInitials`. */
  function GetInitials(name: string): string {
    Upper(FirstChars(Split(name, ' ')))
  }

  /** The non-empty pieces, in order. */
  function NonEmpty(parts: seq<string>): (r: seq<string>)
    ensures forall k | 0 <= k < |r| :: r[k] != "" && r[k] in parts
    ensures forall p | p in parts && p != "" :: p in r
  {
    if parts == [] then []
    else (if parts[0] == "" then [] else [parts[0]]) + NonEmpty(parts[1..])
  }

  /** Dropping the empty pieces works piece by piece, so it distributes over concatenation. */
  lemma {:induction false} NonEmptyAppend(a: seq<string>, b: seq<string>)
    ensures NonEmpty(a + b) == NonEmpty(a) + NonEmpty(b)
  {
    if a == [] {
      assert a + b == b;
    } else {
      assert (a + b)[0] == a[0];
      assert (a + b)[1..] == a[1..] + b;
      NonEmptyAppend(a[1..], b);
    }
  }

  /** One character per non-empty piece: its first, in piece order. */
  lemma {:induction false} FirstCharsOfNonEmpty(parts: seq<string>)
    ensures |FirstChars(parts)| == |NonEmpty(parts)|
    ensures forall k | 0 <= k < |NonEmpty(parts)| :: FirstChars(parts)[k] == NonEmpty(parts)[k][0]
  {
    if parts != [] {
      FirstCharsOfNonEmpty(parts[1..]);
      if parts[0] != "" {
        var r := NonEmpty(parts);
        assert r == [parts[0]] + NonEmpty(parts[1..]);
        forall k | 0 <= k < |r| ensures FirstChars(parts)[k] == r[k][0] {
          if k > 0 {
            assert FirstChars(parts)[k] == FirstChars(parts[1..])[k - 1];
          }
        }
      }
    }
  }

  /** An empty piece contributes nothing. */
  lemma {:induction false} EmptyPieceIgnored(xs: seq<string>, ys: seq<string>)
    ensures FirstChars(xs + [""] + ys) == FirstChars(xs + ys)
  {
    if xs == [] {
      var zs := [""] + ys;
      assert xs + [""] + ys == zs && xs + ys == ys;
      assert zs[0] == "" && zs[1..] == ys;
    } else {
      assert (xs + [""] + ys)[1..] == xs[1..] + [""] + ys;
      assert (xs + ys)[1..] == xs[1..] + ys;
      EmptyPieceIgnored(xs[1..], ys);
    }
  }

  /** The initials are one upper-cased first character per space-separated word, in word order. */
  lemma InitialsPerWord(name: string)
    ensures var words := NonEmpty(Split(name, ' '));
      && |GetInitials(name)| == |words|
      && forall k | 0 <= k < |words| :: GetInitials(name)[k] == UpperChar(words[k][0])
  {
    FirstCharsOfNonEmpty(Split(name, ' '));
  }

  /** Every character of the initials is upper case (no ASCII lower-case letter is left). */
  lemma InitialsUpper(name: string)
    ensures forall i | 0 <= i < |GetInitials(name)| :: !('a' <= GetInitials(name)[i] <= 'z')
  {
  }

  /** A leading space adds no character. */
  lemma LeadingSpaceIgnored(name: string)
    ensures GetInitials(" " + name) == GetInitials(name)
  {
    var s := " " + name;
    assert s[0] == ' ' && s[1..] == name;
    assert Split(s, ' ') == [""] + Split(name, ' ');
    EmptyPieceIgnored([], Split(name, ' '));
    assert [] + [""] + Split(name, ' ') == [""] + Split(name, ' ');
    assert [] + Split(name, ' ') == Split(name, ' ');
    assert FirstChars(Split(s, ' ')) == FirstChars(Split(name, ' '));
  }

  /** A single word gives its upper-cased first letter, and an empty name gives nothing. */
  lemma SingleWord(name: string)
    requires ' ' !in name
    ensures GetInitials(name) == if name == "" then "" else [UpperChar(name[0])]
  {
    SplitWithoutSeparator(name, ' ');
    assert [name][1..] == [];
    if name != "" {
      assert FirstChars([name]) == [name[0]];
    }
  }

  /** There are never more initials than spaces plus one. */
  lemma InitialsBound(name: string)
    ensures |GetInitials(name)| <= Count(name, ' ') + 1
  {
    SplitCount(name, ' ');
    FirstCharsOfNonEmpty(Split(name, ' '));
    NonEmptyShorter(Split(name, ' '));
  }

  lemma {:induction false} NonEmptyShorter(parts: seq<string>)
    ensures |NonEmpty(parts)| <= |parts|
  {
    if parts != [] {
      NonEmptyShorter(parts[1..]);
    }
  }

  /** What the avatar fallback of the navigation bar shows. */
  datatype AvatarText = InitialsText(text: string) | UserIcon

  /** The navigation bar's avatar: a placeholder icon while loading, the initials when signed in
      with a non-empty name, and the user icon otherwise. */
  function NavbarAvatar(isLoading: bool, isSignedIn: bool, name: string): (a: AvatarText)
    ensures a.InitialsText? <==> !isLoading && isSignedIn && name != ""
    ensures a.InitialsText? ==> a.text == GetInitials(name)
  {
    if isLoading then UserIcon
    else if isSignedIn && name != "" then InitialsText(GetInitials(name))
    else UserIcon
  }

  /** A name of spaces only still counts as a name: the fallback then shows empty initials
      rather than the user icon. */
  lemma SpacesOnlyName()
    ensures NavbarAvatar(false, true, " ") == InitialsText("")
  {
    LeadingSpaceIgnored("");
  }
}
