/** Initials-based avatars: the initials shown for a username and the
    palette colour picked from the sum of its code points. Strings are
    ASCII; whitespace is what Python's `str.split()` and `str.strip()` skip
    among ASCII characters. */
module Avatar {
  import opened Wrappers

  // ---------------------------------------------------------------------
  // Characters

  /** Space, tab, line feed, vertical tab, form feed, carriage return and
      the four ASCII separators 0x1C to 0x1F. */
  predicate IsSpace(c: char)
  {
    c == ' ' || '\t' <= c <= '\r' || '\U{1C}' <= c <= '\U{1F}'
  }

  predicate AllSpace(s: string)
  {
    forall i :: 0 <= i < |s| ==> IsSpace(s[i])
  }

  /** `str.upper()` on ASCII: lower-case letters become capitals, every
      other character is kept. */
  function UpperChar(c: char): (u: char)
    ensures 'a' <= c <= 'z' ==> u as int == c as int - 32 && 'A' <= u <= 'Z'
    ensures !('a' <= c <= 'z') ==> u == c
  {
    if 'a' <= c <= 'z' then (c as int - 32) as char else c
  }

  function Upper(s: string): (r: string)
    ensures |r| == |s|
    ensures forall i :: 0 <= i < |s| ==> r[i] == UpperChar(s[i])
  {
    if |s| == 0 then [] else [UpperChar(s[0])] + Upper(s[1..])
  }

  // ---------------------------------------------------------------------
  // strip() and split()

  /** `str.strip()`: without leading and trailing whitespace. */
  function TrimLeft(s: string): (r: string)
    ensures |r| <= |s| && r == s[|s| - |r|..]
    ensures AllSpace(s[..|s| - |r|])
    ensures |r| > 0 ==> !IsSpace(r[0])
  {
    if |s| == 0 || !IsSpace(s[0]) then s
    else
      var r := TrimLeft(s[1..]);
      assert s[..|s| - |r|] == [s[0]] + s[1..][..|s[1..]| - |r|];
      r
  }

  function TrimRight(s: string): (r: string)
    ensures |r| <= |s| && r == s[..|r|]
    ensures AllSpace(s[|r|..])
    ensures |r| > 0 ==> !IsSpace(r[|r| - 1])
  {
    if |s| == 0 || !IsSpace(s[|s| - 1]) then s
    else
      var r := TrimRight(s[..|s| - 1]);
      assert s[|r|..] == s[..|s| - 1][|r|..] + [s[|s| - 1]];
      r
  }

  function Strip(s: string): string
  {
    TrimRight(TrimLeft(s))
  }

  /** The run of non-whitespace characters a string starts with. */
  function TakeWord(s: string): (w: string)
    ensures |w| <= |s| && w == s[..|w|]
    ensures forall i :: 0 <= i < |w| ==> !IsSpace(w[i])
    ensures |w| < |s| ==> IsSpace(s[|w|])
  {
    if |s| == 0 || IsSpace(s[0]) then [] else [s[0]] + TakeWord(s[1..])
  }

  /** `str.split()`: the maximal runs of non-whitespace characters, in
      order. */
  function Words(s: string): (ws: seq<string>)
    ensures forall k :: 0 <= k < |ws| ==> |ws[k]| > 0
    ensures forall k, i :: 0 <= k < |ws| && 0 <= i < |ws[k]| ==> !IsSpace(ws[k][i])
    decreases |s|
  {
    if |s| == 0 then []
    else if IsSpace(s[0]) then Words(s[1..])
    else
      var w := TakeWord(s);
      [w] + Words(s[|w|..])
  }

  /** A string has no words exactly when it is all whitespace. */
  lemma {:induction false} NoWordsIffAllSpace(s: string)
    ensures Words(s) == [] <==> AllSpace(s)
    decreases |s|
  {
    if |s| > 0 {
      if IsSpace(s[0]) {
        NoWordsIffAllSpace(s[1..]);
        assert AllSpace(s) <==> AllSpace(s[1..]) by {
          assert forall i :: 1 <= i < |s| ==> s[i] == s[1..][i - 1];
        }
      }
    }
  }

  /** The first word begins at the first non-whitespace character. */
  lemma {:induction false} FirstWordStartsAtFirstNonSpace(s: string, i: nat)
    requires i < |s| && !IsSpace(s[i]) && AllSpace(s[..i])
    ensures Words(s) != [] && Words(s)[0][0] == s[i]
    decreases |s|
  {
    if i > 0 {
      assert IsSpace(s[..i][0]);
      assert s[1..][..i - 1] == s[..i][1..];
      FirstWordStartsAtFirstNonSpace(s[1..], i - 1);
    }
  }

  /** Leading whitespace does not change the words. */
  lemma {:induction false} WordsSkipLeading(pre: string, s: string)
    requires AllSpace(pre)
    ensures Words(pre + s) == Words(s)
    decreases |pre|
  {
    if |pre| > 0 {
      assert (pre + s)[0] == pre[0] && IsSpace(pre[0]);
      assert (pre + s)[1..] == pre[1..] + s;
      WordsSkipLeading(pre[1..], s);
    } else {
      assert pre + s == s;
    }
  }

  lemma {:induction false} TakeWordBeforeSpace(s: string, t: string)
    requires |t| == 0 || IsSpace(t[0])
    ensures TakeWord(s + t) == TakeWord(s)
    decreases |s|
  {
    if |s| == 0 {
      assert s + t == t;
    } else if !IsSpace(s[0]) {
      assert (s + t)[1..] == s[1..] + t;
      TakeWordBeforeSpace(s[1..], t);
    }
  }

  /** Trailing whitespace does not change the words. */
  lemma {:induction false} WordsIgnoreTrailing(s: string, post: string)
    requires AllSpace(post)
    ensures Words(s + post) == Words(s)
    decreases |s|
  {
    if |s| == 0 {
      assert s + post == post;
      NoWordsIffAllSpace(post);
    } else if IsSpace(s[0]) {
      assert (s + post)[1..] == s[1..] + post;
      WordsIgnoreTrailing(s[1..], post);
    } else {
      TakeWordBeforeSpace(s, post);
      var w := TakeWord(s);
      assert (s + post)[|w|..] == s[|w|..] + post;
      WordsIgnoreTrailing(s[|w|..], post);
    }
  }

  lemma StripLeftKeepsWords(s: string)
    ensures Words(TrimLeft(s)) == Words(s)
  {
    var l := TrimLeft(s);
    var pre := s[..|s| - |l|];
    assert s == pre + l;
    WordsSkipLeading(pre, l);
  }

  lemma StripRightKeepsWords(l: string)
    ensures Words(TrimRight(l)) == Words(l)
  {
    var r := TrimRight(l);
    var post := l[|r|..];
    assert l == r + post;
    WordsIgnoreTrailing(r, post);
  }

  /** So stripping before splitting changes nothing. */
  lemma StripKeepsWords(s: string)
    ensures Words(Strip(s)) == Words(s)
  {
    StripLeftKeepsWords(s);
    StripRightKeepsWords(TrimLeft(s));
  }

  // ---------------------------------------------------------------------
  // get_user_initials

  /** `get_user_initials`: "?" for a missing, empty or blank username; the
      capitalised first letters of the first two words when there are two
      or more; otherwise the first two characters of the username as given,
      leading whitespace included, capitalised. */
  function UserInitials(username: Option<string>): (r: string)
    ensures username.None? ==> r == "?"
    ensures username.Some? && AllSpace(username.value) ==> r == "?"
    ensures username.Some? && |Words(username.value)| >= 2 ==>
              r == [UpperChar(Words(username.value)[0][0]), UpperChar(Words(username.value)[1][0])]
    ensures username.Some? && |Words(username.value)| == 1 ==>
              r == Upper(username.value[..if |username.value| < 2 then |username.value| else 2])
    ensures 1 <= |r| <= 2
  {
    match username
    case None => "?"
    case Some(u) =>
      if |u| == 0 then "?"
      else
        var parts := Words(Strip(u));
        StripKeepsWords(u);
        NoWordsIffAllSpace(u);
        if |parts| >= 2 then Upper([parts[0][0], parts[1][0]])
        else if |parts| == 1 then Upper(u[..if |u| < 2 then |u| else 2])
        else "?"
  }

  /** A missing, empty or blank username has no initials. */
  lemma InitialsOfBlankNames()
    ensures UserInitials(None) == "?"
    ensures UserInitials(Some("")) == "?"
    ensures UserInitials(Some("   ")) == "?"
  {
    assert AllSpace("   ");
  }

  lemma JeanPierreFirstWord()
    ensures Words("jean pierre") == ["jean"] + Words(" pierre")
  {
    var jp := "jean pierre";
    var first := "jean";
    var rest := " pierre";
    assert jp == first + rest;
    assert TakeWord(first) == first by {
      assert !IsSpace(first[0]) && !IsSpace(first[1]) && !IsSpace(first[2]) && !IsSpace(first[3]);
      assert first[1..] == "ean" && first[1..][1..] == "an" && first[1..][1..][1..] == "n";
    }
    TakeWordBeforeSpace(first, rest);
    assert jp[|first|..] == rest;
  }

  lemma JeanPierreSecondWord()
    ensures Words(" pierre") != [] && Words(" pierre")[0][0] == 'p'
  {
    var rest := " pierre";
    assert AllSpace(rest[..1]) && !IsSpace(rest[1]);
    FirstWordStartsAtFirstNonSpace(rest, 1);
  }

  /** Two words: their capitalised first letters. */
  lemma InitialsOfTwoWords()
    ensures UserInitials(Some("jean pierre")) == "JP"
  {
    JeanPierreFirstWord();
    JeanPierreSecondWord();
    var ws := Words("jean pierre");
    assert |ws| >= 2 && ws[0][0] == 'j' && ws[1][0] == 'p';
  }

  /** One word: the first two characters as typed, so a leading space is
      kept. */
  lemma InitialsKeepLeadingSpace()
    ensures UserInitials(Some(" x")) == " X"
  {
    var u := " x";
    assert !IsSpace(u[1]) && IsSpace(u[0]);
    WordsCount(u);
    assert u[..2] == u;
  }

  /** One word: its first two characters, capitalised. */
  lemma InitialsOfOneWord()
    ensures UserInitials(Some("marie")) == "MA"
  {
    var m := "marie";
    assert !IsSpace(m[0]);
    WordsCount(m);
    assert m[..2] == "ma";
  }

  /** A string without inner whitespace after its first character is one
      word. */
  lemma WordsCount(s: string)
    requires |s| > 0 && !AllSpace(s)
    requires forall i :: 1 <= i < |s| ==> !IsSpace(s[i])
    ensures |Words(s)| == 1
  {
    if IsSpace(s[0]) {
      assert !IsSpace(s[1]);
      assert TakeWord(s[1..]) == s[1..];
      assert s[1..][|s[1..]|..] == [];
    } else {
      assert TakeWord(s) == s;
      assert s[|s|..] == [];
    }
  }

  // ---------------------------------------------------------------------
  // get_avatar_color

  const Palette: seq<string> := [
    "#1abc9c", "#2ecc71", "#3498db", "#9b59b6", "#34495e",
    "#16a085", "#27ae60", "#2980b9", "#8e44ad", "#2c3e50",
    "#f1c40f", "#e67e22", "#e74c3c", "#ecf0f1", "#95a5a6",
    "#f39c12", "#d35400", "#c0392b", "#bdc3c7", "#7f8c8d",
    "#d4af37", "#e6c85c", "#2c3e50", "#1a2332", "#3a4a5f"]

  /** The sum of the code points of a string. */
  function CodePointSum(s: string): (n: nat)
  {
    if |s| == 0 then 0 else s[0] as nat + CodePointSum(s[1..])
  }

  /** `get_avatar_color`: one of the 25 palette entries, chosen by the code
      point sum modulo 25. */
  function AvatarColor(username: string): (r: string)
    ensures r in Palette
    ensures exists i :: 0 <= i < |Palette| && i == CodePointSum(username) % 25 && r == Palette[i]
  {
    Palette[CodePointSum(username) % |Palette|]
  }

  /** Taking out one character takes its code point out of the sum. */
  lemma {:induction false} CodePointSumRemove(s: string, i: nat)
    requires i < |s|
    ensures CodePointSum(s) == s[i] as nat + CodePointSum(s[..i] + s[i + 1..])
    decreases |s|
  {
    if i > 0 {
      CodePointSumRemove(s[1..], i - 1);
      assert s[1..][..i - 1] + s[1..][i..] == (s[..i] + s[i + 1..])[1..];
    } else {
      assert s[..i] + s[i + 1..] == s[1..];
    }
  }

  /** The sum depends only on which characters occur how often. */
  lemma {:induction false} CodePointSumPermutation(a: string, b: string)
    requires multiset(a) == multiset(b)
    ensures CodePointSum(a) == CodePointSum(b)
    decreases |a|
  {
    if |a| > 0 {
      assert a[0] in multiset(b);
      var i :| 0 <= i < |b| && b[i] == a[0];
      var rest := b[..i] + b[i + 1..];
      assert b == b[..i] + [b[i]] + b[i + 1..];
      assert a == [a[0]] + a[1..];
      assert multiset(b) == multiset(b[..i]) + multiset{b[i]} + multiset(b[i + 1..]);
      assert multiset(rest) == multiset(b[..i]) + multiset(b[i + 1..]);
      assert multiset(a) == multiset{a[0]} + multiset(a[1..]);
      assert multiset(a[1..]) == multiset(a) - multiset{a[0]};
      assert multiset(rest) == multiset(b) - multiset{b[i]};
      CodePointSumRemove(b, i);
      CodePointSumPermutation(a[1..], rest);
    } else {
      assert |b| == |multiset(b)| == 0;
    }
  }

  /** Usernames that are rearrangements of each other share a colour. */
  lemma PermutationsShareColor(a: string, b: string)
    requires multiset(a) == multiset(b)
    ensures AvatarColor(a) == AvatarColor(b)
  {
    CodePointSumPermutation(a, b);
  }

  /** The palette lists one colour twice, so only 24 colours are in use. */
  lemma PaletteRepeatsAColor()
    ensures |Palette| == 25 && Palette[9] == Palette[22]
    ensures forall i, j :: 0 <= i < j < |Palette| && Palette[i] == Palette[j] ==> i == 9 && j == 22
  {
  }
}
