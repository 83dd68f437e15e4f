/**
 The Python text operations the agent relies on: strip, split, join, partition, upper-casing and
 ASCII encoding. Upper-casing covers the ASCII letters.
 */
module PyText {
  import opened Basics

  /** The characters for which str.isspace holds, which str.split and str.strip remove. */
  predicate IsSpace(c: char) {
    || 9 <= c as int <= 13 || 28 <= c as int <= 32 || c as int == 0x85 || c as int == 0xA0
    || c as int == 0x1680 || 0x2000 <= c as int <= 0x200A || c as int == 0x2028 || c as int == 0x2029
    || c as int == 0x202F || c as int == 0x205F || c as int == 0x3000
  }

  predicate Printable(s: string) {
    forall c :: c in s ==> 0x20 <= c as int <= 0x7E
  }

  predicate IsDigit(c: char) { '0' <= c <= '9' }

  predicate IsUpperAlnum(c: char) { IsDigit(c) || 'A' <= c <= 'Z' }

  predicate IsAlnum(c: char) { IsUpperAlnum(c) || 'a' <= c <= 'z' }

  lemma DigitsExactly(c: char)
    ensures IsDigit(c) <==> c in "0123456789"
  {
    if IsDigit(c) { assert "0123456789"[c as int - 48] == c; }
  }

  lemma CapitalsExactly(c: char)
    ensures 'A' <= c <= 'Z' <==> c in "ABCDEFGHIJKLMNOPQRSTUVWXYZ"
  {
    if 'A' <= c <= 'Z' { assert "ABCDEFGHIJKLMNOPQRSTUVWXYZ"[c as int - 65] == c; }
  }

  lemma SmallLettersExactly(c: char)
    ensures 'a' <= c <= 'z' <==> c in "abcdefghijklmnopqrstuvwxyz"
  {
    if 'a' <= c <= 'z' { assert "abcdefghijklmnopqrstuvwxyz"[c as int - 97] == c; }
  }

  /** The letters and digits that callsigns and message IDs are made of, one by one. */
  lemma AlphabetExactly(c: char)
    ensures IsUpperAlnum(c) <==> c in "0123456789" || c in "ABCDEFGHIJKLMNOPQRSTUVWXYZ"
    ensures IsAlnum(c) <==> IsUpperAlnum(c) || c in "abcdefghijklmnopqrstuvwxyz"
  {
    DigitsExactly(c);
    CapitalsExactly(c);
    SmallLettersExactly(c);
  }

  /** The white space of Python's str.isspace, one by one. */
  lemma SpacesExactly(c: char)
    ensures IsSpace(c) <==> c as int in {
      9, 10, 11, 12, 13, 28, 29, 30, 31, 32, 0x85, 0xA0, 0x1680, 0x2000, 0x2001, 0x2002, 0x2003, 0x2004, 0x2005, 0x2006,
      0x2007, 0x2008, 0x2009, 0x200A, 0x2028, 0x2029, 0x202F, 0x205F, 0x3000}
  {
  }

  function LStrip(s: string): string {
    if s != "" && IsSpace(s[0]) then LStrip(s[1..]) else s
  }

  function RStrip(s: string): string {
    if s != "" && IsSpace(s[|s| - 1]) then RStrip(s[..|s| - 1]) else s
  }

  function Strip(s: string): string { RStrip(LStrip(s)) }

  function UpperChar(c: char): char {
    if 'a' <= c <= 'z' then (c as int - 32) as char else c
  }

  function Upper(s: string): (r: string)
    ensures |r| == |s|
    ensures forall i :: 0 <= i < |s| ==> r[i] == UpperChar(s[i])
  {
    if s == "" then "" else [UpperChar(s[0])] + Upper(s[1..])
  }

  lemma UpperFixed(s: string)
    requires forall i :: 0 <= i < |s| ==> UpperChar(s[i]) == s[i]
    ensures Upper(s) == s
  {
  }

  predicate LowerOf(a: char, b: char) { 'a' <= a <= 'z' && b as int == a as int - 32 }

  predicate SameLetter(a: char, b: char) { a == b || LowerOf(a, b) || LowerOf(b, a) }

  /** The same text but for the case of its letters. */
  predicate SameLetters(s: string, t: string) {
    |s| == |t| && forall i :: 0 <= i < |s| ==> SameLetter(s[i], t[i])
  }

  predicate HasNoLower(s: string) {
    forall i :: 0 <= i < |s| ==> !('a' <= s[i] <= 'z')
  }

  /** Upper-casing yields the one text with the same letters and no lower-case one. */
  lemma UpperExact(s: string, t: string)
    ensures Upper(s) == t <==> SameLetters(s, t) && HasNoLower(t)
  {
    if SameLetters(s, t) && HasNoLower(t) {
      forall i | 0 <= i < |s| ensures Upper(s)[i] == t[i] {
        assert SameLetter(s[i], t[i]);
      }
    }
  }

  /** Upper-casing a word yields this one in capitals exactly when its letters are the same. */
  lemma UpperReads(w: string, low: string, capitals: string)
    requires |low| == |capitals| && forall i :: 0 <= i < |low| ==> LowerOf(low[i], capitals[i])
    ensures Upper(w) == capitals <==> SameLetters(w, low)
  {
    UpperExact(w, capitals);
    assert HasNoLower(capitals);
    hide Upper, HasNoLower;
    assert SameLetters(w, capitals) <==> SameLetters(w, low) by {
      if |w| == |low| {
        assert forall i :: 0 <= i < |w| ==> (SameLetter(w[i], low[i]) <==> SameLetter(w[i], capitals[i]));
      }
    }
  }

  /** Position of the first occurrence, or the length when there is none. */
  function Find(s: string, c: char): (k: nat)
    ensures k <= |s|
    ensures c !in s[..k]
    ensures k < |s| ==> s[k] == c
  {
    if s == "" || s[0] == c then 0
    else
      var k := Find(s[1..], c) + 1;
      assert s[..k] == [s[0]] + s[1..][..k - 1];
      k
  }

  lemma {:induction false} FindIs(s: string, c: char, k: nat)
    requires k <= |s| && c !in s[..k] && (k < |s| ==> s[k] == c)
    ensures Find(s, c) == k
  {
    if k > 0 {
      assert s[0] == s[..k][0];
      assert s[1..][..k - 1] == s[..k][1..];
      FindIs(s[1..], c, k - 1);
    }
  }

  predicate Ascii(s: string) {
    forall i :: 0 <= i < |s| ==> s[i] as int < 128
  }

  function Octet(c: char): Byte
    requires c as int < 128
  {
    c as int
  }

  function EncodeAscii(s: string): (r: Bytes)
    requires Ascii(s)
    ensures |r| == |s|
    ensures forall i :: 0 <= i < |s| ==> r[i] == s[i] as int
  {
    seq(|s|, i requires 0 <= i < |s| => Octet(s[i]))
  }

  function DecodeAscii(b: Bytes): (r: Option<string>)
    ensures r.Some? <==> forall i :: 0 <= i < |b| ==> b[i] < 128
    ensures r.Some? ==> |r.value| == |b| && forall i :: 0 <= i < |b| ==> r.value[i] as int == b[i]
  {
    if exists i :: 0 <= i < |b| && b[i] >= 128 then None
    else Some(seq(|b|, i requires 0 <= i < |b| => b[i] as char))
  }

  lemma AsciiRoundTrip(s: string)
    requires Ascii(s)
    ensures DecodeAscii(EncodeAscii(s)) == Some(s)
  {
    var b := EncodeAscii(s);
    var d := DecodeAscii(b).value;
    assert forall i :: 0 <= i < |s| ==> d[i] as int == s[i] as int;
    assert d == s;
  }

  // ---- Words ----

  function TokenLength(s: string): (n: nat)
    ensures n <= |s|
    ensures forall i :: 0 <= i < n ==> !IsSpace(s[i])
    ensures n < |s| ==> IsSpace(s[n])
  {
    if s == "" || IsSpace(s[0]) then 0 else 1 + TokenLength(s[1..])
  }

  function Words(s: string): seq<string>
    decreases |s|
  {
    if s == "" then []
    else if IsSpace(s[0]) then Words(s[1..])
    else [s[..TokenLength(s)]] + Words(s[TokenLength(s)..])
  }

  function Join(words: seq<string>): string {
    if words == [] then ""
    else if |words| == 1 then words[0]
    else words[0] + " " + Join(words[1..])
  }

  /** The idiom `" ".join(text.strip().split())`. */
  function Squeeze(s: string): string { Join(Words(Strip(s))) }

  /** White space only as single blanks, possibly at the ends; closed under taking substrings. */
  predicate Clean(s: string) {
    && (forall i :: 0 <= i < |s| && IsSpace(s[i]) ==> s[i] == ' ')
    && (forall i, j :: 0 <= i < j < |s| && s[i] == ' ' && s[j] == ' ' ==> i + 1 < j)
  }

  /** Text whose only white space is single blanks strictly between other characters. */
  predicate Tidy(s: string) {
    && Clean(s)
    && (s != "" ==> !IsSpace(s[0]) && !IsSpace(s[|s| - 1]))
  }

  predicate Word(w: string) {
    w != "" && forall c :: c in w ==> !IsSpace(c)
  }

  lemma {:induction false} WordsAreWords(s: string)
    ensures forall w :: w in Words(s) ==> Word(w) && forall c :: c in w ==> c in s
    decreases |s|
  {
    if s == "" {
    } else if IsSpace(s[0]) {
      WordsAreWords(s[1..]);
    } else {
      WordsAreWords(s[TokenLength(s)..]);
    }
  }

  lemma {:induction false} JoinTidy(words: seq<string>)
    requires forall w :: w in words ==> Word(w)
    ensures Tidy(Join(words))
    ensures words != [] ==> Join(words) != ""
  {
    if words == [] {
    } else {
      var w, rest := words[0], Join(words[1..]);
      assert w in words;
      JoinTidy(words[1..]);
      assert forall i :: 0 <= i < |w| ==> !IsSpace(w[i]) by {
        forall i | 0 <= i < |w| ensures !IsSpace(w[i]) { assert w[i] in w; }
      }
    }
  }

  lemma CleanSlice(s: string, lo: nat, hi: nat)
    requires Clean(s) && lo <= hi <= |s|
    ensures Clean(s[lo..hi])
  {
    var t := s[lo..hi];
    forall i, j | 0 <= i < j < |t| && t[i] == ' ' && t[j] == ' ' ensures i + 1 < j {
      assert s[lo + i] == ' ' && s[lo + j] == ' ';
    }
  }

  lemma TidyRest(s: string, n: nat)
    requires Tidy(s) && n < |s| && IsSpace(s[n])
    ensures s[n] == ' ' && n + 1 < |s| && Tidy(s[n + 1..])
  {
    CleanSlice(s, n + 1, |s|);
    assert s[n + 1..] == s[n + 1..|s|];
  }

  /** Tidy text is a fixed point of splitting and rejoining. */
  lemma {:induction false} JoinWords(s: string)
    requires Tidy(s)
    ensures Join(Words(s)) == s
    decreases |s|
  {
    if s == "" {
    } else {
      var n := TokenLength(s);
      if n == |s| {
        assert Words(s[n..]) == [];
        assert s[..n] == s;
      } else {
        var rest := s[n + 1..];
        assert s[n..][1..] == rest;
        TidyRest(s, n);
        JoinWords(rest);
        assert Words(s[n..]) == Words(rest);
        assert Words(rest) != [];
        assert s == s[..n] + " " + rest;
      }
    }
  }

  lemma StripTidy(s: string)
    requires Tidy(s)
    ensures Strip(s) == s
  {
  }

  lemma SqueezeTidy(s: string)
    requires Tidy(s)
    ensures Squeeze(s) == s
  {
    StripTidy(s);
    JoinWords(s);
  }

  lemma SqueezeIsTidy(s: string)
    ensures Tidy(Squeeze(s))
  {
    WordsAreWords(Strip(s));
    JoinTidy(Words(Strip(s)));
  }

  lemma {:induction false} RStripEnds(s: string)
    ensures RStrip(s) <= s
    ensures RStrip(s) != "" ==> !IsSpace(RStrip(s)[|RStrip(s)| - 1])
  {
    if s != "" && IsSpace(s[|s| - 1]) {
      RStripEnds(s[..|s| - 1]);
    }
  }

  lemma {:induction false} LStripEnds(s: string)
    ensures LStrip(s) != "" ==> !IsSpace(LStrip(s)[0])
    decreases |s|
  {
    if s != "" && IsSpace(s[0]) { LStripEnds(s[1..]); }
  }

  lemma StripEnds(s: string)
    ensures Strip(s) != "" ==> !IsSpace(Strip(s)[0]) && !IsSpace(Strip(s)[|Strip(s)| - 1])
  {
    LStripEnds(s);
    RStripEnds(LStrip(s));
  }

  // ---- What the words of a text are ----

  predicate Blank(s: string) {
    forall i :: 0 <= i < |s| ==> IsSpace(s[i])
  }

  /** The first word stands after i blanks and is followed by white space or nothing. */
  predicate WordAt(s: string, i: nat, w: string) {
    && i + |w| <= |s| && Blank(s[..i]) && s[i..i + |w|] == w && Word(w)
    && (i + |w| < |s| ==> IsSpace(s[i + |w|]))
  }

  /** The text holds these words in this order, white space between and around them, and nothing else. */
  ghost predicate Spells(s: string, words: seq<string>)
    decreases |words|
  {
    if words == [] then Blank(s)
    else exists i: nat :: WordAt(s, i, words[0]) && Spells(s[i + |words[0]|..], words[1..])
  }

  lemma SpelledBy(s: string, words: seq<string>, i: nat, rest: string)
    requires words != [] && WordAt(s, i, words[0]) && rest == s[i + |words[0]|..] && Spells(rest, words[1..])
    ensures Spells(s, words)
  {
    hide WordAt;
  }

  lemma FirstSpelled(s: string, words: seq<string>) returns (i: nat)
    requires words != [] && Spells(s, words)
    ensures WordAt(s, i, words[0]) && i + |words[0]| <= |s| && Spells(s[i + |words[0]|..], words[1..])
  {
    i :| WordAt(s, i, words[0]) && Spells(s[i + |words[0]|..], words[1..]);
  }

  lemma SpellsPastBlank(s: string, words: seq<string>)
    requires s != "" && IsSpace(s[0]) && Spells(s, words)
    ensures Spells(s[1..], words)
  {
    if words == [] {
      BlankAfterBlank(s);
    } else {
      var i := FirstSpelled(s, words);
      FirstOfWord(s, i, words[0]);
      hide *;
      WordAtNext(s, i - 1, words[0]);
      NextSuffix(s, i - 1, words[0]);
      SpelledBy(s[1..], words, i - 1, s[i + |words[0]|..]);
    }
  }

  lemma SpellsAfterBlank(s: string, words: seq<string>)
    requires s != "" && IsSpace(s[0]) && Spells(s[1..], words)
    ensures Spells(s, words)
  {
    if words == [] {
      BlankAfterBlank(s);
    } else {
      var j := FirstSpelled(s[1..], words);
      hide *;
      WordAtNext(s, j, words[0]);
      NextSuffix(s, j, words[0]);
      SpelledBy(s, words, j + 1, s[1..][j + |words[0]|..]);
    }
  }

  lemma BlankAfterBlank(s: string)
    requires s != "" && IsSpace(s[0])
    ensures Blank(s) <==> Blank(s[1..])
  {
    hide IsSpace;
    assert forall i :: 1 <= i < |s| ==> s[i] == s[1..][i - 1];
  }

  lemma NextSuffix(s: string, j: nat, w: string)
    requires j + 1 + |w| <= |s|
    ensures s[1..][j + |w|..] == s[j + 1 + |w|..]
  {
  }

  lemma FirstOfWord(s: string, i: nat, w: string)
    requires WordAt(s, i, w)
    ensures 0 < |w| <= |s| - i && !IsSpace(s[i])
    ensures i > 0 ==> IsSpace(s[0])
  {
    assert s[i] == w[0] && w[0] in w;
    assert i > 0 ==> s[..i][0] == s[0];
  }

  lemma WordAtNext(s: string, i: nat, w: string)
    requires s != "" && IsSpace(s[0])
    ensures WordAt(s, i + 1, w) <==> WordAt(s[1..], i, w)
  {
    if i + 1 + |w| <= |s| {
      assert s[..i + 1] == [s[0]] + s[1..][..i];
      assert s[1..][i..i + |w|] == s[i + 1..i + 1 + |w|];
    }
  }

  lemma TokenIs(s: string, n: nat)
    requires n <= |s| && (forall i :: 0 <= i < n ==> !IsSpace(s[i])) && (n < |s| ==> IsSpace(s[n]))
    ensures TokenLength(s) == n
  {
    var k := TokenLength(s);
    hide TokenLength;
    assert k < |s| ==> IsSpace(s[k]);
  }

  /** Splitting finds exactly the words that stand in the text. */
  lemma {:induction false} WordsExact(s: string, words: seq<string>)
    ensures words == Words(s) <==> Spells(s, words)
    decreases |s|
  {
    if s == "" {
    } else if IsSpace(s[0]) {
      WordsExact(s[1..], words);
      hide Spells;
      if Spells(s, words) { SpellsPastBlank(s, words); }
      if Spells(s[1..], words) { SpellsAfterBlank(s, words); }
    } else {
      var n := TokenLength(s);
      if words != [] {
        WordsExact(s[n..], words[1..]);
        FirstWord(s, words[0]);
        if words == Words(s) {
          assert WordAt(s, 0, words[0]);
        }
        if i: nat :| WordAt(s, i, words[0]) && Spells(s[i + |words[0]|..], words[1..]) {
          assert i == 0 && words[0] == s[..n];
        }
      }
    }
  }

  lemma FirstWord(s: string, w: string)
    requires s != "" && !IsSpace(s[0])
    ensures w == s[..TokenLength(s)] ==> WordAt(s, 0, w)
    ensures forall i: nat :: WordAt(s, i, w) ==> i == 0 && w == s[..TokenLength(s)]
  {
    forall i: nat | WordAt(s, i, w) ensures i == 0 && w == s[..TokenLength(s)] {
      FirstOfWord(s, i, w);
      forall k | 0 <= k < |w| ensures !IsSpace(s[k]) { assert s[k] == w[k] && w[k] in w; }
      TokenIs(s, |w|);
    }
  }

  lemma {:induction false} WordsDropLast(s: string)
    requires s != "" && IsSpace(s[|s| - 1])
    ensures Words(s[..|s| - 1]) == Words(s)
    decreases |s|
  {
    var t := s[..|s| - 1];
    if |s| == 1 {
      assert t == "";
    } else if IsSpace(s[0]) {
      WordsDropLast(s[1..]);
      assert t[1..] == s[1..][..|s| - 2];
    } else {
      var n := TokenLength(s);
      WordsDropLast(s[n..]);
      TokenIs(t, n);
      hide IsSpace, TokenLength;
      assert t[n..] == s[n..][..|s| - 1 - n];
      assert t[..n] == s[..n];
    }
  }

  lemma {:induction false} WordsRStrip(s: string)
    ensures Words(RStrip(s)) == Words(s)
  {
    if s != "" && IsSpace(s[|s| - 1]) {
      WordsRStrip(s[..|s| - 1]);
      WordsDropLast(s);
    }
  }

  lemma {:induction false} WordsLStrip(s: string)
    ensures Words(LStrip(s)) == Words(s)
  {
    if s != "" && IsSpace(s[0]) {
      WordsLStrip(s[1..]);
    }
  }

  lemma {:induction false} JoinSpells(words: seq<string>)
    requires forall w :: w in words ==> Word(w)
    ensures Spells(Join(words), words)
  {
    if words != [] {
      var w, rest, s := words[0], words[1..], Join(words);
      assert w in words;
      JoinSpells(rest);
      assert s[0..|w|] == w;
      assert WordAt(s, 0, w);
      if rest != [] {
        var tail := s[|w|..];
        assert tail == " " + Join(rest) && tail[1..] == Join(rest);
        SpellsAfterBlank(tail, rest);
      }
      assert Spells(s[0 + |w|..], rest);
    }
  }

  /** Squeezing keeps the words; the result is the only tidy text with these words. */
  lemma SqueezeExact(s: string, t: string)
    ensures t == Squeeze(s) <==> Tidy(t) && Words(t) == Words(s)
  {
    var words := Words(Strip(s));
    WordsLStrip(s);
    WordsRStrip(LStrip(s));
    WordsAreWords(Strip(s));
    JoinSpells(words);
    WordsExact(Join(words), words);
    SqueezeIsTidy(s);
    if Tidy(t) && Words(t) == words {
      JoinWords(t);
    }
  }

  lemma SqueezeSpelled(s: string, words: seq<string>)
    requires Spells(s, words)
    ensures Squeeze(s) == Join(words) && forall w :: w in words ==> Word(w)
  {
    WordsExact(s, words);
    WordsAreWords(s);
    WordsLStrip(s);
    WordsRStrip(LStrip(s));
  }

  lemma WordsOfJoin(words: seq<string>)
    requires forall w :: w in words ==> Word(w)
    ensures Words(Join(words)) == words
  {
    JoinSpells(words);
    WordsExact(Join(words), words);
  }
}
