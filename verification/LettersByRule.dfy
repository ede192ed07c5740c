/** When two texts are one plate, and when a lane may take one for the other, letter by letter. */
module LettersByRule {
  import opened Text
  import opened Plates
  import opened Lists

  /** The space, the tab and the breaks of a line; the four separators of data; the dot and the dash. */
  const ASCII_SPACES := " \t\n\U{000b}\U{000c}\r\U{001c}\U{001d}\U{001e}\U{001f}"
  const ASCII_SEPARATORS := ASCII_SPACES + ".-"

  /** Of the ASCII characters these are white space, and these are no part of a plate. */
  lemma AsciiSeparatorsAre(c: char)
    requires c < '\U{0080}'
    ensures IsSpace(c) <==> c in ASCII_SPACES
    ensures Separator(c) <==> c in ASCII_SEPARATORS
  {
  }

  /** What is stripped is the middle of the text: white space before it and after it, none at
      its own ends. */
  lemma StripIsTheMiddle(s: string) returns (i: nat, j: nat)
    ensures i <= j <= |s| && Strip(s) == s[i..j]
    ensures forall k :: 0 <= k < i || j <= k < |s| ==> IsSpace(s[k])
    ensures Trimmed(Strip(s))
  {
    StripTrims(s);
    i := LeftOf(s);
    var n := RightOf(StripLeft(s));
    j := i + n;
    assert StripLeft(s) == s[i..];
    assert forall k :: j <= k < |s| ==> s[k] == StripLeft(s)[k - i];
    assert Strip(s) == s[i..][..n];
  }

  lemma {:induction false} LeftOf(s: string) returns (i: nat)
    ensures i <= |s| && StripLeft(s) == s[i..] && forall k :: 0 <= k < i ==> IsSpace(s[k])
  {
    i := 0;
    if s != "" && IsSpace(s[0]) {
      var rest := LeftOf(s[1..]);
      i := rest + 1;
      assert s[1..][rest..] == s[i..];
      assert forall k :: 1 <= k < i ==> s[k] == s[1..][k - 1];
    }
  }

  lemma {:induction false} RightOf(s: string) returns (n: nat)
    ensures n <= |s| && StripRight(s) == s[..n] && forall k :: n <= k < |s| ==> IsSpace(s[k])
  {
    n := |s|;
    if s != "" && IsSpace(s[|s| - 1]) {
      n := RightOf(s[..|s| - 1]);
      assert s[..|s| - 1][..n] == s[..n];
      assert forall k :: n <= k < |s| - 1 ==> s[k] == s[..|s| - 1][k];
    }
  }

  // ---------------------------------------------------------------------- one plate

  /** The letters of a text: all that is no separator. */
  function Letters(text: string): string {
    Filter(text, (c: char) => !Separator(c))
  }

  /** One letter: the same, or the other case of it, or the O and the zero, or the I and the one. */
  predicate OneLetter(c: char, d: char) {
    c == d || OtherCase(c, d) || OtherCase(d, c) || (c in "0Oo" && d in "0Oo") || (c in "1Ii" && d in "1Ii")
  }

  predicate OtherCase(small: char, capital: char) {
    'a' <= small <= 'z' && capital as int == small as int - 32
  }

  /** What a plate reader confuses with the digit, in either case. */
  function Group(digit: char): string {
    match digit
    case '0' => "0OoQqDd"
    case '1' => "1IiLl"
    case '8' => "8Bb"
    case '5' => "5Ss"
    case '2' => "2Zz"
    case '6' => "6Gg"
    case _ => ""
  }

  /** One letter, or two of one group. */
  ghost predicate LooksLike(c: char, d: char) {
    OneLetter(c, d) || exists digit :: c in Group(digit) && d in Group(digit)
  }

  ghost predicate Alike(a: string, b: string, same: (char, char) -> bool) {
    |a| == |b| && forall i :: 0 <= i < |a| ==> same(a[i], b[i])
  }

  lemma CapitalIs(c: char)
    ensures Upper(c) == 'O' <==> c in "Oo"
    ensures Upper(c) == 'I' <==> c in "Ii"
    ensures Upper(c) == 'Q' <==> c in "Qq"
    ensures Upper(c) == 'D' <==> c in "Dd"
    ensures Upper(c) == 'L' <==> c in "Ll"
    ensures Upper(c) == 'B' <==> c in "Bb"
    ensures Upper(c) == 'S' <==> c in "Ss"
    ensures Upper(c) == 'Z' <==> c in "Zz"
    ensures Upper(c) == 'G' <==> c in "Gg"
    ensures forall d :: d in "018526" ==> (Upper(c) == d <==> c == d)
  {
  }

  lemma SameCapital(c: char, d: char)
    ensures Upper(c) == Upper(d) <==> c == d || OtherCase(c, d) || OtherCase(d, c)
  {
  }

  lemma OneLetterIs(c: char, d: char)
    ensures ReadAsDigit(Upper(c)) == ReadAsDigit(Upper(d)) <==> OneLetter(c, d)
  {
    CapitalIs(c);
    CapitalIs(d);
    SameCapital(c, d);
  }

  lemma GroupIs(c: char, digit: char)
    requires digit in "018526"
    ensures LookAlike(ReadAsDigit(Upper(c))) == digit <==> c in Group(digit)
  {
    CapitalIs(c);
  }

  /** No letter is in two groups, and both cases of it are in one. */
  lemma GroupsApart(c: char, x: char, y: char)
    requires c in Group(x) && c in Group(y)
    ensures x == y
  {
  }

  lemma OneLetterOneGroup(c: char, d: char, digit: char)
    requires OneLetter(c, d)
    ensures c in Group(digit) <==> d in Group(digit)
  {
    OneLetterIs(c, d);
    if digit in "018526" {
      GroupIs(c, digit);
      GroupIs(d, digit);
    }
  }

  lemma InNoGroup(c: char)
    requires LookAlike(ReadAsDigit(Upper(c))) !in "018526"
    ensures LookAlike(ReadAsDigit(Upper(c))) == ReadAsDigit(Upper(c))
    ensures forall digit :: c !in Group(digit)
  {
    forall digit ensures c !in Group(digit) {
      if digit in "018526" {
        GroupIs(c, digit);
      }
    }
  }

  lemma LooksLikeIs(c: char, d: char)
    ensures LookAlike(ReadAsDigit(Upper(c))) == LookAlike(ReadAsDigit(Upper(d))) <==> LooksLike(c, d)
  {
    var digit := LookAlike(ReadAsDigit(Upper(c)));
    OneLetterIs(c, d);
    if digit in "018526" {
      GroupIs(c, digit);
      GroupIs(d, digit);
      if x :| c in Group(x) && d in Group(x) {
        GroupsApart(c, x, digit);
      }
      if OneLetter(c, d) {
        OneLetterOneGroup(c, d, digit);
      }
    } else {
      InNoGroup(c);
      if LookAlike(ReadAsDigit(Upper(d))) !in "018526" {
        InNoGroup(d);
      } else if OneLetter(c, d) {
        OneLetterIs(c, d);
      }
    }
  }

  /** A plate's normal form is its letters, one for one. */
  lemma {:induction false} KeyOfLetters(text: string)
    ensures |PlateKey(text)| == |Letters(text)|
    ensures forall i :: 0 <= i < |Letters(text)| ==> PlateKey(text)[i] == ReadAsDigit(Upper(Letters(text)[i]))
  {
    if text != "" {
      var n := |text| - 1;
      KeyOfLetters(text[..n]);
      assert text == text[..n] + [text[n]];
      PlateKeyJoined(text[..n], [text[n]]);
      OneMoreLetter(text, n);
    }
  }

  lemma OneMoreLetter(text: string, n: nat)
    requires |text| == n + 1
    ensures PlateKey([text[n]]) == if Separator(text[n]) then "" else [ReadAsDigit(Upper(text[n]))]
    ensures Letters(text) == Letters(text[..n]) + if Separator(text[n]) then "" else [text[n]]
  {
    CapitalSeparates(text[n]);
    assert PlateKey([text[n]]) == KeyChar(text[n]) + PlateKey("");
  }

  lemma CapitalSeparates(c: char)
    ensures Separator(Upper(c)) <==> Separator(c)
  {
    assert 'A' <= Upper(c) <= 'Z' ==> !Separator(Upper(c));
    assert 'a' <= c <= 'z' ==> !Separator(c) && 'A' <= Upper(c) <= 'Z';
  }

  lemma {:induction false} FoldedEach(key: string)
    ensures |Folded(key)| == |key| && forall i :: 0 <= i < |key| ==> Folded(key)[i] == LookAlike(key[i])
  {
    if key != "" {
      FoldedEach(key[1..]);
    }
  }

  /** TWO TEXTS ARE ONE PLATE exactly when, separators aside, they are the same letters in the
      same order, in either case, the O and the zero one letter and the I and the one one. */
  lemma OnePlateIff(a: string, b: string)
    ensures PlateKey(a) == PlateKey(b) <==> Alike(Letters(a), Letters(b), OneLetter)
  {
    KeyOfLetters(a);
    KeyOfLetters(b);
    if |Letters(a)| == |Letters(b)| {
      forall i | 0 <= i < |Letters(a)| ensures PlateKey(a)[i] == PlateKey(b)[i] <==> OneLetter(Letters(a)[i], Letters(b)[i]) {
        OneLetterIs(Letters(a)[i], Letters(b)[i]);
      }
    }
  }

  /** THEY LOOK ALIKE exactly when each letter is the other's, or one a reader confuses with it. */
  lemma LookAlikeIff(a: string, b: string)
    ensures LookAlikeKey(a) == LookAlikeKey(b) <==> Alike(Letters(a), Letters(b), LooksLike)
  {
    FoldedLetters(a);
    FoldedLetters(b);
    if |Letters(a)| == |Letters(b)| {
      forall i | 0 <= i < |Letters(a)|
        ensures LookAlikeKey(a)[i] == LookAlikeKey(b)[i] <==> LooksLike(Letters(a)[i], Letters(b)[i])
      {
        LooksLikeIs(Letters(a)[i], Letters(b)[i]);
      }
    }
  }

  lemma FoldedLetters(text: string)
    ensures |LookAlikeKey(text)| == |Letters(text)|
    ensures forall i :: 0 <= i < |Letters(text)| ==> LookAlikeKey(text)[i] == LookAlike(ReadAsDigit(Upper(Letters(text)[i])))
  {
    KeyOfLetters(text);
    FoldedEach(PlateKey(text));
  }
}
