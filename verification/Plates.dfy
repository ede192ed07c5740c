/** The one normal form a plate is compared in, the look-alikes, and how near a
    lane's read must be to the plate a QR was made for. */
module Plates {
  import opened Basics
  import opened Text

  /** Capitals: the ASCII letters. */
  function Upper(c: char): char {
    if 'a' <= c <= 'z' then c - 'a' + 'A' else c
  }

  /** Dash punctuation, and the separators named beside it. */
  predicate Separator(c: char) {
    || IsSpace(c) || c == '.' || c == '-' || c == '\U{2212}' || c == '\U{feff}'
    || '\U{200b}' <= c <= '\U{200d}' || '\U{2010}' <= c <= '\U{2015}'
    || c == '\U{058a}' || c == '\U{05be}' || c == '\U{1400}' || c == '\U{1806}'
    || c == '\U{2e17}' || c == '\U{2e1a}' || c == '\U{2e3a}' || c == '\U{2e3b}' || c == '\U{2e40}' || c == '\U{2e5d}'
    || c == '\U{301c}' || c == '\U{3030}' || c == '\U{30a0}' || c == '\U{fe31}' || c == '\U{fe32}'
    || c == '\U{fe58}' || c == '\U{fe63}' || c == '\U{ff0d}' || c == '\U{10ead}'
  }

  function ReadAsDigit(c: char): char {
    if c == 'O' then '0' else if c == 'I' then '1' else c
  }

  function PlateKey(text: string): string {
    if text == "" then ""
    else
      var c := Upper(text[0]);
      (if Separator(c) then "" else [ReadAsDigit(c)]) + PlateKey(text[1..])
  }

  /** 0OQD, 1IL, 8B, 5S, 2Z, 6G: each group read as its first character. */
  function LookAlike(c: char): char {
    if c == 'O' || c == 'Q' || c == 'D' then '0'
    else if c == 'I' || c == 'L' then '1'
    else if c == 'B' then '8'
    else if c == 'S' then '5'
    else if c == 'Z' then '2'
    else if c == 'G' then '6'
    else c
  }

  function Folded(key: string): string {
    if key == "" then "" else [LookAlike(key[0])] + Folded(key[1..])
  }

  function LookAlikeKey(text: string): string {
    Folded(PlateKey(text))
  }

  function Mismatches(a: string, b: string): nat
    requires |a| == |b|
  {
    if a == "" then 0 else (if a[0] != b[0] then 1 else 0) + Mismatches(a[1..], b[1..])
  }

  /** The walk over two texts, one a character longer: at the first place they differ, skip it. */
  function OneInserted(shorter: string, longer: string): bool
    requires |longer| == |shorter| + 1
  {
    if shorter == "" then true
    else if shorter[0] != longer[0] then shorter == longer[1..]
    else OneInserted(shorter[1..], longer[1..])
  }

  function WithinOneDifference(a: string, b: string): bool {
    if |a| == |b| then Mismatches(a, b) <= 1
    else if |b| == |a| + 1 then OneInserted(a, b)
    else if |a| == |b| + 1 then OneInserted(b, a)
    else false
  }

  datatype Passed = SamePlate | LookAlikePlate | OneDifference | NothingRead

  const ONE_DIFFERENCE_MIN_LENGTH := 5

  function SimilarEnough(read: Option<string>, plate: string): Option<Passed> {
    if read.None? || PlateKey(read.value) == "" then Some(NothingRead)
    else if PlateKey(read.value) == PlateKey(plate) then Some(SamePlate)
    else
      var seen, madeFor := LookAlikeKey(read.value), LookAlikeKey(plate);
      if seen == madeFor then Some(LookAlikePlate)
      else if |madeFor| >= ONE_DIFFERENCE_MIN_LENGTH && WithinOneDifference(seen, madeFor) then Some(OneDifference)
      else None
  }

  // ------------------------------------------------------------ the normal form

  ghost predicate Normal(s: string) {
    forall i :: 0 <= i < |s| ==> !Separator(s[i]) && Upper(s[i]) == s[i] && ReadAsDigit(s[i]) == s[i]
  }

  lemma {:induction false} KeyIsNormal(text: string)
    ensures Normal(PlateKey(text))
  {
    if text != "" {
      KeyIsNormal(text[1..]);
    }
  }

  lemma {:induction false} NormalIsItsKey(s: string)
    requires Normal(s)
    ensures PlateKey(s) == s
  {
    if s != "" {
      assert Normal(s[1..]);
      NormalIsItsKey(s[1..]);
    }
  }

  /** A plate in normal form is its own normal form. */
  lemma PlateKeyIsIdempotent(text: string)
    ensures PlateKey(PlateKey(text)) == PlateKey(text)
    ensures LookAlikeKey(PlateKey(text)) == LookAlikeKey(text)
  {
    KeyIsNormal(text);
    NormalIsItsKey(PlateKey(text));
  }

  function KeyChar(c: char): string {
    if Separator(Upper(c)) then "" else [ReadAsDigit(Upper(c))]
  }

  lemma {:induction false} PlateKeyJoined(a: string, b: string)
    ensures PlateKey(a + b) == PlateKey(a) + PlateKey(b)
  {
    if a == "" {
      assert a + b == b;
    } else {
      var rest := a[1..];
      assert (a + b)[0] == a[0] && (a + b)[1..] == rest + b;
      PlateKeyJoined(rest, b);
      assert PlateKey(a + b) == KeyChar(a[0]) + PlateKey(rest + b);
      assert PlateKey(a) == KeyChar(a[0]) + PlateKey(rest);
      assert KeyChar(a[0]) + (PlateKey(rest) + PlateKey(b)) == (KeyChar(a[0]) + PlateKey(rest)) + PlateKey(b);
    }
  }

  lemma {:induction false} StripLeftKeepsKey(text: string)
    ensures PlateKey(StripLeft(text)) == PlateKey(text)
  {
    if text != "" && IsSpace(text[0]) {
      StripLeftKeepsKey(text[1..]);
    }
  }

  lemma {:induction false} StripRightKeepsKey(text: string)
    ensures PlateKey(StripRight(text)) == PlateKey(text)
  {
    if text != "" && IsSpace(text[|text| - 1]) {
      var n := |text| - 1;
      StripRightKeepsKey(text[..n]);
      PlateKeyJoined(text[..n], [text[n]]);
      assert text == text[..n] + [text[n]];
      assert [text[n]][1..] == "";
    }
  }

  /** White space around a plate is not part of it. */
  lemma StripKeepsKey(text: string)
    ensures PlateKey(Strip(text)) == PlateKey(text)
  {
    StripLeftKeepsKey(text);
    StripRightKeepsKey(StripLeft(text));
  }

  // -------------------------------------------------------------- edit distance

  function Least(a: nat, b: nat, c: nat): nat {
    if a <= b && a <= c then a else if b <= c then b else c
  }

  /** The fewest characters substituted, inserted or deleted that make one text the other. */
  function Distance(a: string, b: string): nat
    decreases |a| + |b|
  {
    if a == "" then |b|
    else if b == "" then |a|
    else Least(Distance(a[1..], b) + 1, Distance(a, b[1..]) + 1,
               Distance(a[1..], b[1..]) + (if a[0] == b[0] then 0 else 1))
  }

  lemma {:induction false} SameIsNoDistance(a: string, b: string)
    ensures Distance(a, b) == 0 <==> a == b
    decreases |a| + |b|
  {
    if a != "" && b != "" {
      SameIsNoDistance(a[1..], b[1..]);
      assert a == [a[0]] + a[1..] && b == [b[0]] + b[1..];
    }
  }

  lemma {:induction false} DistanceAtMostMismatches(a: string, b: string)
    requires |a| == |b|
    ensures Distance(a, b) <= Mismatches(a, b)
  {
    if a != "" {
      DistanceAtMostMismatches(a[1..], b[1..]);
    }
  }

  lemma {:induction false} OneInsertedIsNear(s: string, l: string)
    requires |l| == |s| + 1 && OneInserted(s, l)
    ensures Distance(s, l) <= 1 && Distance(l, s) <= 1
  {
    if s != "" {
      if s[0] != l[0] {
        SameIsNoDistance(s, l[1..]);
        SameIsNoDistance(l[1..], s);
      } else {
        OneInsertedIsNear(s[1..], l[1..]);
      }
    }
  }

  lemma {:induction false} DroppingOneIsOneInserted(s: string, l: string)
    requires |l| == |s| + 1 && s == l[1..]
    ensures OneInserted(s, l)
  {
    if s != "" && s[0] == l[0] {
      assert s[1..] == l[1..][1..];
      DroppingOneIsOneInserted(s[1..], l[1..]);
    }
  }

  lemma {:induction false} SameHasNoMismatch(a: string)
    ensures Mismatches(a, a) == 0
  {
    if a != "" {
      SameHasNoMismatch(a[1..]);
    }
  }

  lemma {:induction false} NearIsWithinOne(a: string, b: string)
    requires Distance(a, b) <= 1
    ensures WithinOneDifference(a, b)
    decreases |a| + |b|
  {
    if a == "" || b == "" {
    } else if Distance(a[1..], b[1..]) + (if a[0] == b[0] then 0 else 1) <= 1 {
      if a[0] == b[0] {
        NearIsWithinOne(a[1..], b[1..]);
      } else {
        SameIsNoDistance(a[1..], b[1..]);
        SameHasNoMismatch(a[1..]);
      }
    } else if Distance(a[1..], b) == 0 {
      SameIsNoDistance(a[1..], b);
      DroppingOneIsOneInserted(b, a);
    } else {
      SameIsNoDistance(a, b[1..]);
      DroppingOneIsOneInserted(a, b);
    }
  }

  /** The one-pass walk decides exactly an edit distance of one or none. */
  lemma WithinOneIffDistance(a: string, b: string)
    ensures WithinOneDifference(a, b) <==> Distance(a, b) <= 1
  {
    if Distance(a, b) <= 1 {
      NearIsWithinOne(a, b);
    }
    if WithinOneDifference(a, b) {
      if |a| == |b| {
        DistanceAtMostMismatches(a, b);
      } else if |b| == |a| + 1 {
        OneInsertedIsNear(a, b);
      } else {
        OneInsertedIsNear(b, a);
      }
    }
  }

  /** SIMILAR ENOUGH, read as distances: a car is clearly different exactly when something
      usable was read and, look-alikes folded, it is two or more from the plate, or one
      from a plate shorter than five. */
  lemma SimilarEnoughByDistance(read: string, plate: string)
    ensures var d := Distance(LookAlikeKey(read), LookAlikeKey(plate));
            && (SimilarEnough(Some(read), plate).None? <==>
                  PlateKey(read) != "" && (d >= 2 || (d == 1 && |LookAlikeKey(plate)| < 5)))
            && (SimilarEnough(Some(read), plate) == Some(OneDifference) <==>
                  PlateKey(read) != "" && d == 1 && |LookAlikeKey(plate)| >= 5)
            && (SimilarEnough(Some(read), plate) in {Some(SamePlate), Some(LookAlikePlate)} <==>
                  PlateKey(read) != "" && d == 0)
    ensures PlateKey(read) == PlateKey(plate) ==> LookAlikeKey(read) == LookAlikeKey(plate)
  {
    WithinOneIffDistance(LookAlikeKey(read), LookAlikeKey(plate));
    SameIsNoDistance(LookAlikeKey(read), LookAlikeKey(plate));
  }
}
