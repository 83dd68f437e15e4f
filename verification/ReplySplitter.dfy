/**
 Splitting a long reply into numbered fragments at status-field boundaries. The functions say what
 the nested loops compute; the methods are those loops; the lemmas say that nothing is lost, that
 every fragment fits, and that a fragment survives normalisation unchanged.
 */
module ReplySplitter {
  import opened Basics
  import opened PyText
  import AprsMessages

  const MAXIMUM_BODY := AprsMessages.MAX_APRS_MESSAGE_TEXT - 5
  const PAYLOAD_LIMIT := MAXIMUM_BODY - 6

  // ---- Ink: what a reader must still find after splitting ----

  predicate Inked(c: char) { !IsSpace(c) && c != '|' }

  /** The text without blanks and bars. */
  function Ink(s: string): string {
    if s == "" then "" else (if Inked(s[0]) then [s[0]] else "") + Ink(s[1..])
  }

  lemma {:induction false} InkConcat(a: string, b: string)
    ensures Ink(a + b) == Ink(a) + Ink(b)
  {
    if a == "" {
      assert a + b == b;
    } else {
      assert (a + b)[1..] == a[1..] + b;
      InkConcat(a[1..], b);
    }
  }

  lemma {:induction false} NoInk(s: string)
    requires forall i :: 0 <= i < |s| ==> !Inked(s[i])
    ensures Ink(s) == ""
  {
    if s != "" {
      NoInk(s[1..]);
    }
  }

  function InkAll(parts: seq<string>): string { Ink(Flatten(parts)) }

  lemma InkAllStep(parts: seq<string>)
    requires parts != []
    ensures InkAll(parts) == Ink(parts[0]) + InkAll(parts[1..])
  {
    InkConcat(parts[0], Flatten(parts[1..]));
  }

  lemma InkAllAppend(a: seq<string>, b: seq<string>)
    ensures InkAll(a + b) == InkAll(a) + InkAll(b)
  {
    FlattenAppend(a, b);
    InkConcat(Flatten(a), Flatten(b));
  }

  // ---- Specification of the loops ----

  /** Python `text.strip(" |")`. */
  function StripBars(s: string): string {
    if s != "" && s[0] in " |" then StripBars(s[1..])
    else if s != "" && s[|s| - 1] in " |" then StripBars(s[..|s| - 1])
    else s
  }

  function SplitBars(s: string): (fields: seq<string>)
    ensures forall f :: f in fields ==> '|' !in f
    decreases |s|
  {
    var k := Find(s, '|');
    if k == |s| then [s] else [s[..k]] + SplitBars(s[k + 1..])
  }

  /** Strips every field and drops the empty ones. */
  function KeepFields(fields: seq<string>): seq<string> {
    if fields == [] then []
    else (if Strip(fields[0]) != "" then [Strip(fields[0])] else []) + KeepFields(fields[1..])
  }

  function Fields(normalized: string): seq<string> { KeepFields(SplitBars(StripBars(normalized))) }

  function TotalLength(words: seq<string>): nat {
    if words == [] then 0 else |words[0]| + TotalLength(words[1..])
  }

  function Pending(chunk: string): seq<string> { if chunk != "" then [chunk] else [] }

  /** Greedy packing of words, cutting words that do not fit at all. */
  function PackWords(words: seq<string>, chunk: string): seq<string>
    decreases TotalLength(words) + |words|
  {
    if words == [] then Pending(chunk)
    else
      var word := words[0];
      if |word| > PAYLOAD_LIMIT then
        assert ([word[PAYLOAD_LIMIT..]] + words[1..])[1..] == words[1..];
        Pending(chunk) + [word[..PAYLOAD_LIMIT]] + PackWords([word[PAYLOAD_LIMIT..]] + words[1..], "")
      else if word == "" then PackWords(words[1..], chunk)
      else
        var candidate := Strip(chunk + " " + word);
        if chunk != "" && |candidate| > PAYLOAD_LIMIT then [chunk] + PackWords(words[1..], word)
        else PackWords(words[1..], candidate)
  }

  function CandidatesOf(field: string): seq<string> {
    if |field| > PAYLOAD_LIMIT then PackWords(Words(field), "") else [field]
  }

  function AllCandidates(fields: seq<string>): seq<string> {
    if fields == [] then [] else CandidatesOf(fields[0]) + AllCandidates(fields[1..])
  }

  /** Greedy packing of candidate fields into fragments' payloads. */
  function PackFields(candidates: seq<string>, current: string): seq<string> {
    if candidates == [] then Pending(current)
    else
      var candidate := if current != "" then current + " | " + candidates[0] else candidates[0];
      if current != "" && |candidate| > PAYLOAD_LIMIT then [current] + PackFields(candidates[1..], candidates[0])
      else PackFields(candidates[1..], candidate)
  }

  function Chunks(normalized: string): seq<string> { PackFields(AllCandidates(Fields(normalized)), "") }

  function Digit(n: nat): char
    requires n < 10
  {
    (48 + n) as char
  }

  function Decimal(n: nat): (r: string)
    ensures r != "" && forall i :: 0 <= i < |r| ==> IsDigit(r[i])
    ensures n <= 99 ==> |r| <= 2
  {
    if n < 10 then [Digit(n)] else Decimal(n / 10) + [Digit(n % 10)]
  }

  function Label(index: nat, total: nat): string { Decimal(index) + "/" + Decimal(total) }

  function Number(chunks: seq<string>): (r: seq<string>)
    ensures |r| == |chunks|
    ensures forall i :: 0 <= i < |chunks| ==> r[i] == Label(i + 1, |chunks|) + " " + chunks[i]
  {
    seq(|chunks|, i requires 0 <= i < |chunks| => Label(i + 1, |chunks|) + " " + chunks[i])
  }

  function SplitReplySpec(body: string): Result<seq<string>, string> {
    var normalized := Squeeze(body);
    if |normalized| <= MAXIMUM_BODY then Ok([normalized])
    else
      var chunks := Chunks(normalized);
      if chunks == [] || |chunks| > 99 then Err("outbound APRS reply requires too many fragments")
      else Ok(Number(chunks))
  }

  // ---- The loops ----

  /** The words loop between two turns: `done` is emitted, `words` and `chunk` remain. */
  function Packed(done: seq<string>, words: seq<string>, chunk: string): seq<string> {
    done + PackWords(words, chunk)
  }

  lemma CutStep(done: seq<string>, word: string, rest: seq<string>, chunk: string)
    requires |word| > PAYLOAD_LIMIT
    ensures Packed(done, [word] + rest, chunk)
         == Packed(done + Pending(chunk) + [word[..PAYLOAD_LIMIT]], [word[PAYLOAD_LIMIT..]] + rest, "")
  {
    assert ([word] + rest)[1..] == rest;
    var tail := PackWords([word[PAYLOAD_LIMIT..]] + rest, "");
    assert done + (Pending(chunk) + [word[..PAYLOAD_LIMIT]] + tail) == done + Pending(chunk) + [word[..PAYLOAD_LIMIT]] + tail;
  }

  lemma WordStep(done: seq<string>, word: string, rest: seq<string>, chunk: string)
    requires |word| <= PAYLOAD_LIMIT
    ensures var candidate := Strip(chunk + " " + word);
      Packed(done, [word] + rest, chunk)
      == if word == "" then Packed(done, rest, chunk)
         else if chunk != "" && |candidate| > PAYLOAD_LIMIT then Packed(done + [chunk], rest, word)
         else Packed(done, rest, candidate)
  {
    assert ([word] + rest)[1..] == rest;
    assert done + ([chunk] + PackWords(rest, word)) == done + [chunk] + PackWords(rest, word);
  }

  method Candidates(field: string) returns (candidates: seq<string>)
    ensures candidates == CandidatesOf(field)
  {
    candidates := [field];
    if |field| > PAYLOAD_LIMIT {
      candidates := [];
      var words := Words(field);
      ghost var whole := PackWords(words, "");
      var wordChunk := "";
      var i := 0;
      assert words[0..] == words;
      while i < |words|
        invariant 0 <= i <= |words|
        invariant Packed(candidates, words[i..], wordChunk) == whole
      {
        var word := words[i];
        assert words[i..] == [word] + words[i + 1..];
        i := i + 1;
        while |word| > PAYLOAD_LIMIT
          invariant Packed(candidates, [word] + words[i..], wordChunk) == whole
          decreases |word|
        {
          CutStep(candidates, word, words[i..], wordChunk);
          if wordChunk != "" {
            candidates := candidates + [wordChunk];
            wordChunk := "";
          }
          candidates := candidates + [word[..PAYLOAD_LIMIT]];
          word := word[PAYLOAD_LIMIT..];
        }
        WordStep(candidates, word, words[i..], wordChunk);
        if word == "" {
          continue;
        }
        var candidate := Strip(wordChunk + " " + word);
        if wordChunk != "" && |candidate| > PAYLOAD_LIMIT {
          candidates := candidates + [wordChunk];
          wordChunk := word;
        } else {
          wordChunk := candidate;
        }
      }
      assert words[i..] == [];
      if wordChunk != "" {
        candidates := candidates + [wordChunk];
      }
    }
  }

  /** The packing loop between two turns. */
  function PackedFields(done: seq<string>, candidates: seq<string>, current: string): seq<string> {
    done + PackFields(candidates, current)
  }

  lemma FieldStep(done: seq<string>, field: string, rest: seq<string>, current: string)
    ensures var candidate := if current != "" then current + " | " + field else field;
      PackedFields(done, [field] + rest, current)
      == if current != "" && |candidate| > PAYLOAD_LIMIT then PackedFields(done + [current], rest, field)
         else PackedFields(done, rest, candidate)
  {
    assert ([field] + rest)[1..] == rest;
    assert done + ([current] + PackFields(rest, field)) == done + [current] + PackFields(rest, field);
  }

  /** The inner loop over one field's candidates. */
  method PackCandidates(candidates: seq<string>, done: seq<string>, open: string, ghost later: seq<string>)
    returns (chunks: seq<string>, current: string)
    ensures PackedFields(chunks, later, current) == PackedFields(done, candidates + later, open)
  {
    chunks, current := done, open;
    var j := 0;
    assert candidates[0..] == candidates;
    while j < |candidates|
      invariant 0 <= j <= |candidates|
      invariant PackedFields(chunks, candidates[j..] + later, current) == PackedFields(done, candidates + later, open)
    {
      assert candidates[j..] + later == [candidates[j]] + (candidates[j + 1..] + later);
      FieldStep(chunks, candidates[j], candidates[j + 1..] + later, current);
      var candidate := if current != "" then current + " | " + candidates[j] else candidates[j];
      if current != "" && |candidate| > PAYLOAD_LIMIT {
        chunks := chunks + [current];
        current := candidates[j];
      } else {
        current := candidate;
      }
      j := j + 1;
    }
    assert candidates[j..] + later == later;
  }

  method SplitReply(body: string) returns (r: Result<seq<string>, string>)
    ensures r == SplitReplySpec(body)
  {
    var normalized := Squeeze(body);
    if |normalized| <= MAXIMUM_BODY {
      return Ok([normalized]);
    }
    var fields := Fields(normalized);
    ghost var whole := PackFields(AllCandidates(fields), "");
    assert whole == Chunks(normalized);
    var chunks: seq<string> := [];
    var current := "";
    var i := 0;
    assert fields[0..] == fields;
    while i < |fields|
      invariant 0 <= i <= |fields|
      invariant PackedFields(chunks, AllCandidates(fields[i..]), current) == whole
    {
      var candidates := Candidates(fields[i]);
      assert fields[i..][1..] == fields[i + 1..];
      chunks, current := PackCandidates(candidates, chunks, current, AllCandidates(fields[i + 1..]));
      i := i + 1;
    }
    assert fields[i..] == [];
    assert whole == chunks + Pending(current);
    assert chunks + [] == chunks;
    if current != "" {
      chunks := chunks + [current];
    }
    if chunks == [] || |chunks| > 99 {
      return Err("outbound APRS reply requires too many fragments");
    }
    return Ok(Number(chunks));
  }

  // ---- What the fragments are ----

  predicate Piece(p: string) { Ink(p) != "" && Tidy(p) && |p| <= PAYLOAD_LIMIT }

  /** Non-empty text without a bar. */
  predicate Barless(s: string) { s != "" && '|' !in s }

  lemma TidyBarlessInk(s: string)
    requires Barless(s) && Tidy(s)
    ensures Ink(s) != ""
  {
    assert s[0] in s;
  }

  lemma {:induction false} LStripInk(s: string)
    ensures Ink(LStrip(s)) == Ink(s)
    decreases |s|
  {
    if s != "" && IsSpace(s[0]) {
      LStripInk(s[1..]);
    }
  }

  lemma DropBlankInk(s: string)
    requires s != "" && !Inked(s[|s| - 1])
    ensures Ink(s[..|s| - 1]) == Ink(s)
  {
    var last := s[|s| - 1..];
    assert s == s[..|s| - 1] + last;
    NoInk(last);
    InkConcat(s[..|s| - 1], last);
  }

  lemma {:induction false} RStripInk(s: string)
    ensures Ink(RStrip(s)) == Ink(s)
    decreases |s|
  {
    if s != "" && IsSpace(s[|s| - 1]) {
      RStripInk(s[..|s| - 1]);
      DropBlankInk(s);
    }
  }

  lemma StripInk(s: string)
    ensures Ink(Strip(s)) == Ink(s)
  {
    LStripInk(s);
    RStripInk(LStrip(s));
  }

  lemma {:induction false} LStripSlice(s: string) returns (lo: nat)
    ensures lo <= |s| && LStrip(s) == s[lo..]
    decreases |s|
  {
    if s != "" && IsSpace(s[0]) {
      lo := LStripSlice(s[1..]);
      assert s[1..][lo..] == s[lo + 1..];
      lo := lo + 1;
    } else {
      lo := 0;
    }
  }

  lemma StripTidies(s: string)
    requires Clean(s)
    ensures Tidy(Strip(s))
    ensures '|' !in s ==> '|' !in Strip(s)
  {
    var t, r := LStrip(s), Strip(s);
    assert r == RStrip(t);
    StripEnds(s);
    RStripEnds(t);
    var lo := LStripSlice(s);
    hide LStrip, RStrip, Strip;
    assert r == s[lo..lo + |r|];
    CleanSlice(s, lo, lo + |r|);
  }

  lemma {:induction false} StripBarsInk(s: string)
    ensures Ink(StripBars(s)) == Ink(s)
    decreases |s|
  {
    if s != "" && s[0] in " |" {
      StripBarsInk(s[1..]);
    } else if s != "" && s[|s| - 1] in " |" {
      StripBarsInk(s[..|s| - 1]);
      DropBlankInk(s);
    }
  }

  lemma {:induction false} StripBarsClean(s: string)
    requires Clean(s)
    ensures Clean(StripBars(s))
    decreases |s|
  {
    if s != "" && s[0] in " |" {
      CleanSlice(s, 1, |s|);
      assert s[1..] == s[1..|s|];
      StripBarsClean(s[1..]);
    } else if s != "" && s[|s| - 1] in " |" {
      CleanSlice(s, 0, |s| - 1);
      assert s[..|s| - 1] == s[0..|s| - 1];
      StripBarsClean(s[..|s| - 1]);
    }
  }

  lemma {:induction false} SplitBarsInk(s: string)
    ensures InkAll(SplitBars(s)) == Ink(s)
    decreases |s|
  {
    var k := Find(s, '|');
    var fields := SplitBars(s);
    if k == |s| {
      assert fields == [s];
      hide *;
      PendingInk(s);
    } else {
      var first, rest := s[..k], s[k + 1..];
      var others := SplitBars(rest);
      assert fields == [first] + others;
      SplitBarsInk(rest);
      hide *;
      FlushedInk(first, others);
      assert s == first + "|" + rest;
      InkLoneBar(first, rest);
    }
  }

  lemma FlushedInk(first: string, rest: seq<string>)
    ensures InkAll([first] + rest) == Ink(first) + InkAll(rest)
  {
    assert Flatten([first]) == first;
    InkAllAppend([first], rest);
  }

  lemma InkLoneBar(a: string, b: string)
    ensures Ink(a + "|" + b) == Ink(a) + Ink(b)
  {
    assert Ink("|") == "";
    hide Ink;
    InkConcat(a + "|", b);
    InkConcat(a, "|");
  }

  lemma {:induction false} SplitBarsClean(s: string)
    requires Clean(s)
    ensures forall f :: f in SplitBars(s) ==> Clean(f)
    decreases |s|
  {
    var k := Find(s, '|');
    if k < |s| {
      CleanSlice(s, 0, k);
      assert s[..k] == s[0..k];
      CleanSlice(s, k + 1, |s|);
      assert s[k + 1..] == s[k + 1..|s|];
      SplitBarsClean(s[k + 1..]);
    }
  }

  lemma {:induction false} KeepFieldsInk(fields: seq<string>)
    requires forall f :: f in fields ==> Clean(f) && '|' !in f
    ensures InkAll(KeepFields(fields)) == InkAll(fields)
    ensures forall i :: 0 <= i < |KeepFields(fields)| ==> Barless(KeepFields(fields)[i]) && Tidy(KeepFields(fields)[i])
  {
    if fields != [] {
      KeepFieldsInk(fields[1..]);
      assert fields[0] in fields;
      StripInk(fields[0]);
      StripTidies(fields[0]);
      InkAllStep(fields);
      if Strip(fields[0]) != "" {
        InkAllStep(KeepFields(fields));
        assert KeepFields(fields)[1..] == KeepFields(fields[1..]);
      } else {
        assert [] + KeepFields(fields[1..]) == KeepFields(fields[1..]);
      }
    }
  }

  lemma FieldsInk(normalized: string)
    requires Tidy(normalized)
    ensures InkAll(Fields(normalized)) == Ink(normalized)
    ensures forall i :: 0 <= i < |Fields(normalized)| ==> Barless(Fields(normalized)[i]) && Tidy(Fields(normalized)[i])
  {
    StripBarsInk(normalized);
    StripBarsClean(normalized);
    SplitBarsClean(StripBars(normalized));
    SplitBarsInk(StripBars(normalized));
    KeepFieldsInk(SplitBars(StripBars(normalized)));
  }

  lemma InkBlank(a: string, b: string)
    ensures Ink(a + " " + b) == Ink(a) + Ink(b)
  {
    assert Ink(" ") == "";
    hide Ink;
    InkConcat(a + " ", b);
    InkConcat(a, " ");
  }

  lemma InkBar(a: string, b: string)
    ensures Ink(a + " | " + b) == Ink(a) + Ink(b)
  {
    var bar := " | ";
    assert Ink(bar) == "" by { NoInk(bar); }
    InkConcat(a + bar, b);
    InkConcat(a, bar);
  }

  lemma {:induction false} WordTidy(w: string)
    requires Word(w)
    ensures Tidy(w)
  {
    forall i | 0 <= i < |w| ensures !IsSpace(w[i]) { assert w[i] in w; }
  }

  lemma ExtendChunk(chunk: string, word: string)
    requires Tidy(chunk) && Word(word)
    ensures Strip(chunk + " " + word) == if chunk == "" then word else chunk + " " + word
    ensures Tidy(Strip(chunk + " " + word))
  {
    WordTidy(word);
    if chunk == "" {
      assert (chunk + " " + word)[1..] == word;
      assert LStrip(word) == word;
    } else {
      StripTidy(chunk + " " + word);
    }
  }

  predicate InkyWords(words: seq<string>) {
    forall i :: 0 <= i < |words| ==> Word(words[i]) && '|' !in words[i]
  }

  predicate Pieces(pieces: seq<string>) {
    forall i :: 0 <= i < |pieces| ==> Piece(pieces[i])
  }

  lemma CutWord(word: string)
    requires Word(word) && '|' !in word && |word| > PAYLOAD_LIMIT
    ensures Word(word[PAYLOAD_LIMIT..]) && '|' !in word[PAYLOAD_LIMIT..]
    ensures Piece(word[..PAYLOAD_LIMIT])
    ensures Ink(word) == Ink(word[..PAYLOAD_LIMIT]) + Ink(word[PAYLOAD_LIMIT..])
  {
    var head, tail := word[..PAYLOAD_LIMIT], word[PAYLOAD_LIMIT..];
    assert word == head + tail;
    InkConcat(head, tail);
    WordTidy(head);
    TidyBarlessInk(head);
  }

  lemma EmitInk(chunk: string, head: string, packed: seq<string>)
    requires chunk == "" || Piece(chunk)
    requires Piece(head) && Pieces(packed)
    ensures InkAll(Pending(chunk) + [head] + packed) == Ink(chunk) + Ink(head) + InkAll(packed)
    ensures Pieces(Pending(chunk) + [head] + packed)
  {
    PendingInk(chunk);
    PendingInk(head);
    InkAllAppend(Pending(chunk) + [head], packed);
    InkAllAppend(Pending(chunk), [head]);
  }

  lemma FlushInk(chunk: string, packed: seq<string>)
    requires Piece(chunk) && Pieces(packed)
    ensures InkAll([chunk] + packed) == Ink(chunk) + InkAll(packed)
    ensures Pieces([chunk] + packed)
  {
    FlushedInk(chunk, packed);
  }

  /** A word that fits either extends the open chunk to a piece or is a piece of its own. */
  lemma ExtendPiece(chunk: string, word: string)
    requires Word(word) && '|' !in word && |word| <= PAYLOAD_LIMIT
    requires chunk == "" || Piece(chunk)
    ensures Piece(word)
    ensures var candidate := Strip(chunk + " " + word);
      && Ink(candidate) == Ink(chunk) + Ink(word)
      && (chunk == "" || |candidate| <= PAYLOAD_LIMIT ==> Piece(candidate))
  {
    WordTidy(word);
    TidyBarlessInk(word);
    ExtendChunk(chunk, word);
    InkBlank(chunk, word);
    StripInk(chunk + " " + word);
  }

  /** Packing words loses no ink and emits only tidy pieces that fit. */
  lemma {:induction false} PackWordsPieces(words: seq<string>, chunk: string)
    requires InkyWords(words)
    requires chunk == "" || Piece(chunk)
    ensures InkAll(PackWords(words, chunk)) == Ink(chunk) + InkAll(words)
    ensures Pieces(PackWords(words, chunk))
    decreases TotalLength(words) + |words|
  {
    if words == [] {
      PendingInk(chunk);
      return;
    }
    var word, rest := words[0], words[1..];
    assert InkyWords(rest);
    InkAllStep(words);
    if |word| > PAYLOAD_LIMIT {
      CutWord(word);
      var cut := [word[PAYLOAD_LIMIT..]] + rest;
      assert cut[1..] == rest;
      PackWordsPieces(cut, "");
      CutInk(word, rest, cut, chunk, PackWords(cut, ""));
    } else {
      ExtendPiece(chunk, word);
      Regroup(Ink(chunk), Ink(word), InkAll(rest), "");
      var candidate := Strip(chunk + " " + word);
      if chunk != "" && |candidate| > PAYLOAD_LIMIT {
        PackWordsPieces(rest, word);
        FlushInk(chunk, PackWords(rest, word));
      } else {
        PackWordsPieces(rest, candidate);
      }
    }
  }

  lemma CutInk(word: string, rest: seq<string>, cut: seq<string>, chunk: string, packed: seq<string>)
    requires Word(word) && '|' !in word && |word| > PAYLOAD_LIMIT
    requires cut == [word[PAYLOAD_LIMIT..]] + rest
    requires chunk == "" || Piece(chunk)
    requires InkAll(packed) == InkAll(cut) && Pieces(packed)
    ensures InkAll(Pending(chunk) + [word[..PAYLOAD_LIMIT]] + packed) == Ink(chunk) + (Ink(word) + InkAll(rest))
    ensures Pieces(Pending(chunk) + [word[..PAYLOAD_LIMIT]] + packed)
  {
    CutWord(word);
    assert cut[1..] == rest;
    InkAllStep(cut);
    EmitInk(chunk, word[..PAYLOAD_LIMIT], packed);
    Regroup(Ink(chunk), Ink(word[..PAYLOAD_LIMIT]), Ink(word[PAYLOAD_LIMIT..]), InkAll(rest));
  }

  lemma Regroup(a: string, b: string, c: string, d: string)
    ensures a + b + (c + d) == a + (b + c + d)
    ensures a + b + c == a + (b + c)
  {
  }

  lemma PendingInk(chunk: string)
    ensures InkAll(Pending(chunk)) == Ink(chunk)
    ensures InkAll([chunk]) == Ink(chunk) && Flatten([chunk]) == chunk
  {
    assert Flatten([chunk]) == chunk;
  }

  lemma {:induction false} WordsInk(s: string)
    ensures InkAll(Words(s)) == Ink(s)
    decreases |s|
  {
    if s == "" {
    } else if IsSpace(s[0]) {
      WordsInk(s[1..]);
    } else {
      var n := TokenLength(s);
      WordsInk(s[n..]);
      InkAllStep(Words(s));
      assert s == s[..n] + s[n..];
      InkConcat(s[..n], s[n..]);
    }
  }

  lemma FieldWords(field: string)
    requires '|' !in field
    ensures InkyWords(Words(field))
  {
    WordsAreWords(field);
    forall i | 0 <= i < |Words(field)| ensures Word(Words(field)[i]) && '|' !in Words(field)[i] {
      assert Words(field)[i] in Words(field);
    }
  }

  lemma CandidatesPieces(field: string)
    requires Barless(field) && Tidy(field)
    ensures InkAll(CandidatesOf(field)) == Ink(field)
    ensures Pieces(CandidatesOf(field))
  {
    hide PackWords, Words, Tidy, Word;
    if |field| > PAYLOAD_LIMIT {
      FieldWords(field);
      PackWordsPieces(Words(field), "");
      WordsInk(field);
    } else {
      PendingInk(field);
      TidyBarlessInk(field);
    }
  }

  lemma {:induction false} AllCandidatesPieces(fields: seq<string>)
    requires forall i :: 0 <= i < |fields| ==> Barless(fields[i]) && Tidy(fields[i])
    ensures InkAll(AllCandidates(fields)) == InkAll(fields)
    ensures Pieces(AllCandidates(fields))
  {
    if fields != [] {
      assert fields[0] in fields;
      CandidatesPieces(fields[0]);
      AllCandidatesPieces(fields[1..]);
      InkAllStep(fields);
      InkAllAppend(CandidatesOf(fields[0]), AllCandidates(fields[1..]));
    }
  }

  lemma JoinPieces(current: string, field: string)
    requires Piece(current) && Piece(field) && |current| + 3 + |field| <= PAYLOAD_LIMIT
    ensures Piece(current + " | " + field)
    ensures Ink(current + " | " + field) == Ink(current) + Ink(field)
  {
    InkBar(current, field);
    var joined := current + " | " + field;
    forall i, j | 0 <= i < j < |joined| && joined[i] == ' ' && joined[j] == ' ' ensures i + 1 < j {
    }
  }

  lemma {:induction false} PackFieldsPieces(candidates: seq<string>, current: string)
    requires Pieces(candidates)
    requires current == "" || Piece(current)
    ensures InkAll(PackFields(candidates, current)) == Ink(current) + InkAll(candidates)
    ensures Pieces(PackFields(candidates, current))
    decreases |candidates|
  {
    if candidates == [] {
      PendingInk(current);
      return;
    }
    var field, rest := candidates[0], candidates[1..];
    assert Pieces(rest) && Piece(field);
    assert Ink("") == "";
    hide Piece, Ink, Flatten;
    InkAllStep(candidates);
    Regroup(Ink(current), Ink(field), InkAll(rest), "");
    if current == "" {
      assert "" + Ink(field) == Ink(field);
      PackFieldsPieces(rest, field);
    } else {
      var candidate := current + " | " + field;
      if |candidate| > PAYLOAD_LIMIT {
        PackFieldsPieces(rest, field);
        FlushInk(current, PackFields(rest, field));
      } else {
        JoinPieces(current, field);
        PackFieldsPieces(rest, candidate);
      }
    }
  }

  lemma ChunksPieces(normalized: string)
    requires Tidy(normalized)
    ensures InkAll(Chunks(normalized)) == Ink(normalized)
    ensures Pieces(Chunks(normalized))
  {
    FieldsInk(normalized);
    AllCandidatesPieces(Fields(normalized));
    PackFieldsPieces(AllCandidates(Fields(normalized)), "");
  }

  lemma SqueezeInk(body: string)
    ensures Ink(Squeeze(body)) == Ink(body)
  {
    StripInk(body);
    WordsInk(Strip(body));
    JoinInk(Words(Strip(body)));
  }

  lemma {:induction false} JoinInk(words: seq<string>)
    ensures Ink(Join(words)) == InkAll(words)
  {
    if words == [] {
    } else if |words| == 1 {
      assert words == [words[0]];
      PendingInk(words[0]);
    } else {
      JoinInk(words[1..]);
      InkAllStep(words);
      InkBlank(words[0], Join(words[1..]));
    }
  }

  // ---- Numbers as they are read ----

  function Value(digits: string): int {
    if digits == "" then 0 else Value(digits[..|digits| - 1]) * 10 + (digits[|digits| - 1] as int - 48)
  }

  /** The text is the number in decimal digits, without leading zeros. */
  predicate Writes(s: string, n: nat) {
    && s != "" && (forall i :: 0 <= i < |s| ==> IsDigit(s[i])) && Value(s) == n && (|s| > 1 ==> s[0] != '0')
  }

  lemma {:induction false} DecimalWrites(n: nat)
    ensures Writes(Decimal(n), n)
    ensures n > 0 ==> Decimal(n)[0] != '0'
  {
    if n >= 10 {
      DecimalWrites(n / 10);
      var s := Decimal(n);
      assert s[..|s| - 1] == Decimal(n / 10);
    } else {
      assert Decimal(n)[..0] == "";
    }
  }

  /** Up to the slash the fragment's number, up to the blank how many there are, and then its text. */
  predicate Headed(fragment: string, number: nat, total: nat, text: string) {
    var slash, blank := Find(fragment, '/'), Find(fragment, ' ');
    && slash < blank < |fragment|
    && Writes(fragment[..slash], number) && Writes(fragment[slash + 1..blank], total) && fragment[blank + 1..] == text
  }

  lemma LabelHeads(number: nat, total: nat, text: string)
    ensures Headed(Label(number, total) + " " + text, number, total, text)
  {
    var a, b := Decimal(number), Decimal(total);
    var f := Label(number, total) + " " + text;
    assert f == a + "/" + b + " " + text;
    assert f[..|a|] == a && f[|a| + 1..|a| + 1 + |b|] == b && f[|a| + 1 + |b| + 1..] == text;
    assert f[..|a| + 1 + |b|] == a + "/" + b;
    FindIs(f, '/', |a|);
    FindIs(f, ' ', |a| + 1 + |b|);
    DecimalWrites(number);
    DecimalWrites(total);
    hide Decimal, Find, Writes;
  }

  /** A fragment's text after its "i/n " label. */
  function Payload(fragment: string): string {
    var k := Find(fragment, ' ');
    if k == |fragment| then "" else fragment[k + 1..]
  }

  lemma HeadedPayload(fragment: string, number: nat, total: nat, text: string)
    requires Headed(fragment, number, total, text)
    ensures Payload(fragment) == text
  {
    hide Find, Writes;
  }

  lemma LabelledPiece(number: nat, total: nat, chunk: string)
    requires 1 <= number <= total <= 99 && Piece(chunk)
    ensures var fragment := Label(number, total) + " " + chunk;
      Tidy(fragment) && |fragment| <= MAXIMUM_BODY
  {
    var tag := Label(number, total);
    assert forall i :: 0 <= i < |tag| ==> IsDigit(tag[i]) || tag[i] == '/';
  }

  lemma {:induction false} InkMember(s: string, c: char)
    ensures c in Ink(s) <==> c in s && Inked(c)
  {
    if s != "" {
      InkMember(s[1..], c);
      assert c in s <==> c == s[0] || c in s[1..];
    }
  }

  lemma {:induction false} InkAllMember(parts: seq<string>, c: char)
    ensures c in InkAll(parts) <==> exists p :: p in parts && c in p && Inked(c)
  {
    if parts != [] {
      InkAllMember(parts[1..], c);
      InkAllStep(parts);
      InkMember(parts[0], c);
    }
  }

  /** Printability of the pieces is printability of the whole. */
  lemma PrintablePieces(chunks: seq<string>, normalized: string)
    requires InkAll(chunks) == Ink(normalized) && Tidy(normalized)
    requires Pieces(chunks)
    ensures (forall p :: p in chunks ==> Printable(p)) <==> Printable(normalized)
  {
    if Printable(normalized) {
      forall p, c | p in chunks && c in p ensures 0x20 <= c as int <= 0x7E {
        var i :| 0 <= i < |p| && p[i] == c;
        InkAllMember(chunks, c);
        InkMember(normalized, c);
      }
    }
    if forall p :: p in chunks ==> Printable(p) {
      forall c | c in normalized ensures 0x20 <= c as int <= 0x7E {
        var i :| 0 <= i < |normalized| && normalized[i] == c;
        InkAllMember(chunks, c);
        InkMember(normalized, c);
      }
    }
  }

  lemma NormalizesUnchanged(fragment: string, id: string)
    requires Tidy(fragment) && fragment != "" && |fragment| <= MAXIMUM_BODY && |id| == 4
    ensures AprsMessages.NormalizeReplyBody(fragment, id) == Ok(fragment) <==> Printable(fragment)
  {
    SqueezeTidy(fragment);
    assert fragment[..|fragment|] == fragment;
  }

  function Payloads(fragments: seq<string>): (r: seq<string>)
    ensures |r| == |fragments| && forall i :: 0 <= i < |r| ==> r[i] == Payload(fragments[i])
  {
    if fragments == [] then [] else [Payload(fragments[0])] + Payloads(fragments[1..])
  }

  /** Fragments that number `chunks` from 1 to their count: each fits, is tidy, and gives its chunk back. */
  predicate Numbers(fragments: seq<string>, chunks: seq<string>) {
    && |fragments| == |chunks|
    && forall i :: 0 <= i < |chunks| ==>
         && Headed(fragments[i], i + 1, |chunks|, chunks[i]) && Payload(fragments[i]) == chunks[i]
         && |fragments[i]| <= MAXIMUM_BODY && Tidy(fragments[i])
  }

  lemma NumberNumbers(chunks: seq<string>)
    requires Pieces(chunks) && |chunks| <= 99
    ensures Numbers(Number(chunks), chunks)
  {
    hide Label, Tidy, Payload, Piece, Headed;
    var fragments := Number(chunks);
    forall i | 0 <= i < |chunks|
      ensures Headed(fragments[i], i + 1, |chunks|, chunks[i])
      ensures Payload(fragments[i]) == chunks[i] && |fragments[i]| <= MAXIMUM_BODY && Tidy(fragments[i])
    {
      LabelHeads(i + 1, |chunks|, chunks[i]);
      HeadedPayload(fragments[i], i + 1, |chunks|, chunks[i]);
      LabelledPiece(i + 1, |chunks|, chunks[i]);
    }
  }

  /**
   For every reply too long for one message that is accepted: the fragments are numbered 1..n with
   n <= 99, each fits and is tidy, and their payloads together carry exactly the ink of the reply.
   */
  lemma {:induction false} FragmentsFaithful(body: string)
    requires |Squeeze(body)| > MAXIMUM_BODY && SplitReplySpec(body).Ok?
    ensures var fragments := SplitReplySpec(body).value;
      && 1 <= |fragments| <= 99
      && Numbers(fragments, Payloads(fragments))
      && Pieces(Payloads(fragments))
      && InkAll(Payloads(fragments)) == Ink(body)
  {
    SqueezeIsTidy(body);
    SqueezeInk(body);
    ChunksPieces(Squeeze(body));
    var chunks := Chunks(Squeeze(body));
    NumberNumbers(chunks);
    PayloadsNumbered(Number(chunks), chunks);
  }

  lemma PayloadsNumbered(fragments: seq<string>, chunks: seq<string>)
    requires Numbers(fragments, chunks)
    ensures Payloads(fragments) == chunks
  {
    forall i | 0 <= i < |chunks| ensures Payloads(fragments)[i] == chunks[i] {
    }
  }

  predicate Survives(fragment: string) {
    AprsMessages.NormalizeReplyBody(fragment, "0000") == Ok(fragment)
  }

  /** Which four characters the ID has does not matter to normalisation. */
  lemma AnyFourCharacterId(fragment: string, id: string)
    requires |id| == 4
    ensures AprsMessages.NormalizeReplyBody(fragment, id) == AprsMessages.NormalizeReplyBody(fragment, "0000")
  {
  }

  /**
   Normalising with a four-character ID leaves every fragment unchanged exactly when the reply is
   printable ASCII; otherwise some fragment is refused.
   */
  lemma FragmentsSurviveNormalization(body: string)
    requires |Squeeze(body)| > MAXIMUM_BODY && SplitReplySpec(body).Ok?
    ensures (forall i :: 0 <= i < |SplitReplySpec(body).value| ==> Survives(SplitReplySpec(body).value[i]))
       <==> Printable(Squeeze(body))
  {
    var fragments := SplitReplySpec(body).value;
    FragmentsFaithful(body);
    SqueezeIsTidy(body);
    SqueezeInk(body);
    PrintablePieces(Payloads(fragments), Squeeze(body));
    SurviveIffPrintable(fragments, Payloads(fragments));
  }

  lemma SurviveIffPrintable(fragments: seq<string>, chunks: seq<string>)
    requires Numbers(fragments, chunks)
    ensures (forall i :: 0 <= i < |fragments| ==> Survives(fragments[i])) <==> (forall p :: p in chunks ==> Printable(p))
  {
    hide Survives, Printable, Tidy, Headed, Payload;
    forall i | 0 <= i < |chunks| ensures Survives(fragments[i]) <==> Printable(chunks[i]) {
      SurvivesIfPrintable(fragments[i], i + 1, |chunks|, chunks[i]);
    }
  }

  lemma SurvivesIfPrintable(fragment: string, number: nat, total: nat, chunk: string)
    requires Headed(fragment, number, total, chunk) && Tidy(fragment) && |fragment| <= MAXIMUM_BODY
    ensures Survives(fragment) <==> Printable(chunk)
  {
    HeadedPrintable(fragment, number, total, chunk);
    hide Printable, Tidy, Writes;
    NormalizesUnchanged(fragment, "0000");
  }

  lemma HeadedPrintable(fragment: string, number: nat, total: nat, chunk: string)
    requires Headed(fragment, number, total, chunk)
    ensures Printable(fragment) <==> Printable(chunk)
  {
    var slash, blank := Find(fragment, '/'), Find(fragment, ' ');
    var a, b := fragment[..slash], fragment[slash + 1..blank];
    assert fragment == a + "/" + b + " " + chunk;
    hide Find, Value;
    assert forall c :: c in a || c in b ==> IsDigit(c);
    assert forall c :: c in fragment <==> c in a || c == '/' || c in b || c == ' ' || c in chunk;
  }

  lemma {:induction false} InkPerPiece(pieces: seq<string>)
    requires Pieces(pieces)
    ensures |pieces| <= |InkAll(pieces)|
  {
    if pieces != [] {
      InkPerPiece(pieces[1..]);
      InkAllStep(pieces);
    }
  }

  /** No reply with between 1 and 99 inked characters is ever refused; one without ink always is when it is too long. */
  lemma Acceptance(body: string)
    ensures 1 <= |Ink(body)| <= 99 ==> SplitReplySpec(body).Ok?
    ensures Ink(body) == "" && |Squeeze(body)| > MAXIMUM_BODY ==> SplitReplySpec(body).Err?
  {
    SqueezeIsTidy(body);
    SqueezeInk(body);
    ChunksPieces(Squeeze(body));
    InkPerPiece(Chunks(Squeeze(body)));
  }
}
