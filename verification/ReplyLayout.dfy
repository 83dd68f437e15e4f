/**
 What the fragments of a long reply are, without the loops that make them: the reply's fields between bars, each
 field's words filled into pieces, the pieces filled into fragments, and the fragments numbered 1/n to n/n.
 */
module ReplyLayout {
  import opened Basics
  import opened PyText
  import opened ReplySplitter

  // ---- Lines filled one after another ----

  function JoinBy(items: seq<string>, separator: string): string {
    if items == [] then ""
    else if |items| == 1 then items[0]
    else items[0] + separator + JoinBy(items[1..], separator)
  }

  function JoinAll(lines: seq<seq<string>>, separator: string): (r: seq<string>)
    ensures |r| == |lines| && forall i :: 0 <= i < |r| ==> r[i] == JoinBy(lines[i], separator)
  {
    if lines == [] then [] else [JoinBy(lines[0], separator)] + JoinAll(lines[1..], separator)
  }

  /** A line fits, and the next line's first item would not have fitted on it as well. */
  predicate Full(lines: seq<seq<string>>, separator: string, i: nat)
    requires i < |lines|
  {
    && lines[i] != [] && |JoinBy(lines[i], separator)| <= PAYLOAD_LIMIT
    && (i + 1 < |lines| && lines[i + 1] != [] ==>
          |JoinBy(lines[i], separator)| + |separator| + |lines[i + 1][0]| > PAYLOAD_LIMIT)
  }

  /** The items in order on lines, each line holding as many as fit on it. */
  predicate Filled(lines: seq<seq<string>>, items: seq<string>, separator: string) {
    Flatten(lines) == items && forall i :: 0 <= i < |lines| ==> Full(lines, separator, i)
  }

  lemma {:induction false} JoinAppend(items: seq<string>, item: string, separator: string)
    requires items != []
    ensures JoinBy(items + [item], separator) == JoinBy(items, separator) + separator + item
  {
    var all := items + [item];
    if |items| == 1 {
      assert all[1..] == [item];
    } else {
      assert all[1..] == items[1..] + [item];
      JoinAppend(items[1..], item, separator);
      var a, b := items[0] + separator, JoinBy(items[1..], separator);
      assert a + (b + separator + item) == a + b + separator + item;
    }
  }

  lemma FlattenStep(line: seq<string>, lines: seq<seq<string>>)
    ensures Flatten([line] + lines) == line + Flatten(lines)
  {
    assert ([line] + lines)[1..] == lines;
  }

  /** A line that the next item would not fit on goes before lines that begin with this item. */
  lemma LineBefore(line: seq<string>, lines: seq<seq<string>>, items: seq<string>, separator: string)
    requires line != [] && |JoinBy(line, separator)| <= PAYLOAD_LIMIT && Filled(lines, items, separator)
    requires items != [] ==> |JoinBy(line, separator)| + |separator| + |items[0]| > PAYLOAD_LIMIT
    ensures Filled([line] + lines, line + items, separator)
  {
    var all := [line] + lines;
    FlattenStep(line, lines);
    hide JoinBy;
    if lines != [] {
      assert Full(lines, separator, 0);
      assert Flatten(lines) == lines[0] + Flatten(lines[1..]);
      assert lines[0][0] == items[0];
    }
    forall i | 0 <= i < |all| ensures Full(all, separator, i) {
      if i > 0 {
        assert Full(lines, separator, i - 1);
      }
    }
  }

  lemma OneLine(line: seq<string>, separator: string)
    requires line != [] && |JoinBy(line, separator)| <= PAYLOAD_LIMIT
    ensures Filled([line], line, separator)
  {
    FlattenStep(line, []);
    assert [line] + [] == [line];
  }

  /** An open line as the loops hold it: its items, its text. */
  predicate Open(text: string, line: seq<string>, separator: string) {
    text == JoinBy(line, separator) && |text| <= PAYLOAD_LIMIT && (line == [] <==> text == "")
  }

  function OpenLines(line: seq<string>): seq<seq<string>> { if line == [] then [] else [line] }

  // ---- Words on pieces ----

  /** A word in blocks no longer than the limit. */
  function Blocks(word: string): seq<string> {
    if |word| <= PAYLOAD_LIMIT then [word] else [word[..PAYLOAD_LIMIT]] + Blocks(word[PAYLOAD_LIMIT..])
  }

  function AllBlocks(words: seq<string>): seq<string> {
    if words == [] then [] else Blocks(words[0]) + AllBlocks(words[1..])
  }

  /** The pieces of a field: its words, cut where they are too long, filled into lines. */
  ghost predicate Broken(field: string, pieces: seq<string>) {
    exists lines :: Filled(lines, AllBlocks(Words(field)), " ") && pieces == JoinAll(lines, " ")
  }

  lemma CutFirst(word: string, rest: seq<string>)
    requires |word| > PAYLOAD_LIMIT
    ensures AllBlocks([word] + rest) == [word[..PAYLOAD_LIMIT]] + AllBlocks([word[PAYLOAD_LIMIT..]] + rest)
  {
    assert ([word] + rest)[1..] == rest && ([word[PAYLOAD_LIMIT..]] + rest)[1..] == rest;
  }

  lemma JoinAllStep(line: seq<string>, lines: seq<seq<string>>, separator: string)
    ensures JoinAll([line] + lines, separator) == [JoinBy(line, separator)] + JoinAll(lines, separator)
  {
    assert ([line] + lines)[1..] == lines;
  }

  /** An item that fits goes on the open line. */
  lemma Extend(text: string, line: seq<string>, item: string, separator: string)
    requires Open(text, line, separator) && item != ""
    ensures var extended := if text == "" then item else text + separator + item;
      |extended| <= PAYLOAD_LIMIT ==> Open(extended, line + [item], separator)
  {
    if line != [] {
      JoinAppend(line, item, separator);
    } else {
      assert line + [item] == [item];
    }
  }

  lemma {:induction false} WordsFill(words: seq<string>, chunk: string, line: seq<string>) returns (lines: seq<seq<string>>)
    requires (forall i :: 0 <= i < |words| ==> Word(words[i])) && Open(chunk, line, " ") && Tidy(chunk)
    ensures Filled(lines, line + AllBlocks(words), " ") && PackWords(words, chunk) == JoinAll(lines, " ")
    decreases TotalLength(words) + |words|
  {
    if words == [] {
      lines := OpenLines(line);
      if line != [] { OneLine(line, " "); }
      assert line + AllBlocks(words) == line;
      return;
    }
    var word, rest := words[0], words[1..];
    assert words == [word] + rest;
    if |word| > PAYLOAD_LIMIT {
      var head, cut := word[..PAYLOAD_LIMIT], [word[PAYLOAD_LIMIT..]] + rest;
      assert cut[1..] == rest;
      CutIsWord(word);
      var later := WordsFill(cut, "", []);
      CutFirst(word, rest);
      lines := AfterBlock(chunk, line, head, later, AllBlocks(cut));
      assert PackWords(words, chunk) == Pending(chunk) + [head] + PackWords(cut, "");
    } else {
      ExtendChunk(chunk, word);
      WordTidy(word);
      Extend(chunk, line, word, " ");
      var candidate := Strip(chunk + " " + word);
      assert AllBlocks(words) == [word] + AllBlocks(rest);
      if chunk != "" && |candidate| > PAYLOAD_LIMIT {
        var later := WordsFill(rest, word, [word]);
        lines := [line] + later;
        assert PackWords(words, chunk) == [chunk] + PackWords(rest, word);
        hide PackWords, AllBlocks, Tidy, Word;
        LineBefore(line, later, [word] + AllBlocks(rest), " ");
        JoinAllStep(line, later, " ");
      } else {
        lines := WordsFill(rest, candidate, line + [word]);
        assert line + [word] + AllBlocks(rest) == line + ([word] + AllBlocks(rest));
      }
    }
  }

  lemma CutIsWord(word: string)
    requires Word(word) && |word| > PAYLOAD_LIMIT
    ensures Word(word[PAYLOAD_LIMIT..])
  {
  }

  /** A full block closes the open line before it and stands on a line of its own. */
  lemma AfterBlock(chunk: string, line: seq<string>, head: string, later: seq<seq<string>>, items: seq<string>)
    returns (lines: seq<seq<string>>)
    requires Open(chunk, line, " ") && |head| == PAYLOAD_LIMIT && Filled(later, [] + items, " ")
    ensures Filled(lines, line + ([head] + items), " ")
    ensures JoinAll(lines, " ") == Pending(chunk) + [head] + JoinAll(later, " ")
  {
    assert [] + items == items;
    LineBefore([head], later, items, " ");
    JoinAllStep([head], later, " ");
    lines := [[head]] + later;
    if line != [] {
      LineBefore(line, lines, [head] + items, " ");
      JoinAllStep(line, lines, " ");
      lines := [line] + lines;
    } else {
      assert line + ([head] + items) == [head] + items;
    }
  }

  // ---- Fields between bars ----

  /** Blanks and bars only. */
  predicate Gap(s: string) {
    forall i :: 0 <= i < |s| ==> !Inked(s[i])
  }

  /** The first field stands in s[i..j], after blanks and bars; from k on comes a bar or nothing. */
  predicate FieldAt(s: string, i: nat, j: nat, k: nat, field: string) {
    && i < j <= k <= |s|
    && Gap(s[..i]) && s[i..j] == field && '|' !in field && !IsSpace(s[i]) && !IsSpace(s[j - 1]) && Blank(s[j..k])
    && (k < |s| ==> s[k] == '|')
  }

  /** The text holds these fields in this order, with bars between them, and nothing else. */
  ghost predicate Holds(s: string, fields: seq<string>)
    decreases |fields|
  {
    if fields == [] then Gap(s)
    else exists i: nat, j: nat, k: nat :: FieldAt(s, i, j, k, fields[0]) && Holds(s[k..], fields[1..])
  }

  lemma HeldBy(s: string, fields: seq<string>, i: nat, j: nat, k: nat, rest: string)
    requires fields != [] && FieldAt(s, i, j, k, fields[0]) && rest == s[k..] && Holds(rest, fields[1..])
    ensures Holds(s, fields)
  {
    hide FieldAt;
  }

  lemma FirstHeld(s: string, fields: seq<string>) returns (i: nat, j: nat, k: nat)
    requires fields != [] && Holds(s, fields)
    ensures FieldAt(s, i, j, k, fields[0]) && i < j <= k <= |s| && Holds(s[k..], fields[1..])
  {
    i, j, k :| FieldAt(s, i, j, k, fields[0]) && Holds(s[k..], fields[1..]);
  }

  lemma FieldAtLater(gap: string, s: string, i: nat, j: nat, k: nat, field: string)
    requires Gap(gap) && FieldAt(s, i, j, k, field)
    ensures FieldAt(gap + s, |gap| + i, |gap| + j, |gap| + k, field) && (gap + s)[|gap| + k..] == s[k..]
  {
    var t := gap + s;
    assert t[..|gap| + i] == gap + s[..i];
    assert t[|gap| + i..|gap| + j] == s[i..j];
    assert t[|gap| + j..|gap| + k] == s[j..k];
  }

  lemma HoldsAfterGap(gap: string, s: string, fields: seq<string>)
    requires Gap(gap) && Holds(s, fields)
    ensures Holds(gap + s, fields)
  {
    if fields != [] {
      var i, j, k := FirstHeld(s, fields);
      hide *;
      FieldAtLater(gap, s, i, j, k, fields[0]);
      HeldBy(gap + s, fields, |gap| + i, |gap| + j, |gap| + k, s[k..]);
    }
  }

  /** A bar or a blank more at the end changes nothing. */
  lemma {:induction false} HoldsBeforeGap(s: string, c: char, fields: seq<string>)
    requires c in " |" && Holds(s, fields)
    ensures Holds(s + [c], fields)
    decreases |fields|
  {
    if fields != [] {
      var i, j, k := FirstHeld(s, fields);
      hide *;
      if k < |s| || c == '|' {
        HoldsBeforeGap(s[k..], c, fields[1..]);
        assert s[k..] + [c] == (s + [c])[k..];
        FieldAtLonger(s, c, i, j, k, fields[0]);
        HeldBy(s + [c], fields, i, j, k, (s + [c])[k..]);
      } else {
        assert s[k..] == "";
        assert [c] == " ";
        NothingHeld(s[k..], fields[1..]);
        NothingIsGap();
        FieldAtEnd(s, i, j, fields[0]);
        HeldBy(s + [c], fields, i, j, k + 1, "");
      }
    }
  }

  lemma NothingIsGap()
    ensures Holds("", [])
  {
  }

  lemma NothingHeld(s: string, fields: seq<string>)
    requires s == "" && Holds(s, fields)
    ensures fields == []
  {
  }

  lemma FieldAtLonger(s: string, c: char, i: nat, j: nat, k: nat, field: string)
    requires FieldAt(s, i, j, k, field) && (k < |s| || c == '|')
    ensures FieldAt(s + [c], i, j, k, field)
  {
    var t := s + [c];
    assert t[..i] == s[..i] && t[i..j] == s[i..j] && t[j..k] == s[j..k];
  }

  lemma FieldAtEnd(s: string, i: nat, j: nat, field: string)
    requires FieldAt(s, i, j, |s|, field)
    ensures FieldAt(s + " ", i, j, |s| + 1, field) && (s + " ")[|s| + 1..] == ""
  {
    var t := s + " ";
    assert t[..i] == s[..i] && t[i..j] == s[i..j] && t[j..|s| + 1] == s[j..|s|] + " ";
  }

  lemma {:induction false} BarsStripped(s: string, fields: seq<string>)
    requires Holds(StripBars(s), fields)
    ensures Holds(s, fields)
    decreases |s|
  {
    hide Holds;
    if s != "" && s[0] in " |" {
      BarsStripped(s[1..], fields);
      HoldsAfterGap([s[0]], s[1..], fields);
      assert [s[0]] + s[1..] == s;
    } else if s != "" && s[|s| - 1] in " |" {
      BarsStripped(s[..|s| - 1], fields);
      HoldsBeforeGap(s[..|s| - 1], s[|s| - 1], fields);
      assert s[..|s| - 1] + [s[|s| - 1]] == s;
    }
  }

  /** Where a text without its outer white space begins and ends in it. */
  lemma StripSlice(s: string) returns (i: nat, j: nat)
    requires Strip(s) != ""
    ensures i < j <= |s| && s[i..j] == Strip(s) && Blank(s[..i]) && Blank(s[j..])
    ensures !IsSpace(s[i]) && !IsSpace(s[j - 1])
  {
    i := LStripSlice(s);
    LStripBlank(s, i);
    var t := LStrip(s);
    RStripEnds(t);
    RStripBlank(t);
    StripEnds(s);
    j := i + |Strip(s)|;
    hide LStrip, RStrip, IsSpace;
    assert s[j..] == t[|Strip(s)|..];
  }

  lemma {:induction false} LStripBlank(s: string, lo: nat)
    requires lo <= |s| && LStrip(s) == s[lo..]
    ensures Blank(s[..lo])
    decreases |s|
  {
    if s != "" && IsSpace(s[0]) && lo > 0 {
      assert s[1..][lo - 1..] == s[lo..];
      LStripBlank(s[1..], lo - 1);
      assert s[..lo] == [s[0]] + s[1..][..lo - 1];
    }
  }

  lemma {:induction false} RStripBlank(s: string)
    ensures |RStrip(s)| <= |s| && Blank(s[|RStrip(s)|..])
  {
    if s != "" && IsSpace(s[|s| - 1]) {
      var t := s[..|s| - 1];
      RStripBlank(t);
      assert s[|RStrip(t)|..] == t[|RStrip(t)|..] + [s[|s| - 1]];
    }
  }

  lemma {:induction false} NothingStripped(s: string)
    requires Strip(s) == ""
    ensures Blank(s)
  {
    var lo := LStripSlice(s);
    LStripBlank(s, lo);
    RStripBlank(LStrip(s));
    assert s == s[..lo] + s[lo..];
  }

  /** One raw field and what follows its bar, if there is one. */
  lemma FieldThenRest(raw: string, tail: string, fields: seq<string>)
    requires '|' !in raw && (tail == "" || tail[0] == '|') && Holds(tail, fields)
    ensures Holds(raw + tail, KeepFields([raw]) + fields)
  {
    var kept := Strip(raw);
    if kept == "" {
      NothingStripped(raw);
      assert KeepFields([raw]) + fields == fields;
      assert Gap(raw);
      HoldsAfterGap(raw, tail, fields);
    } else {
      var i, j := StripSlice(raw);
      var s := raw + tail;
      assert KeepFields([raw]) + fields == [kept] + fields;
      assert ([kept] + fields)[1..] == fields;
      hide Strip, IsSpace, Holds;
      RawFieldAt(raw, tail, i, j);
      HeldBy(s, [kept] + fields, i, j, |raw|, tail);
    }
  }

  lemma RawFieldAt(raw: string, tail: string, i: nat, j: nat)
    requires '|' !in raw && (tail == "" || tail[0] == '|')
    requires i < j <= |raw| && Blank(raw[..i]) && Blank(raw[j..]) && !IsSpace(raw[i]) && !IsSpace(raw[j - 1])
    ensures FieldAt(raw + tail, i, j, |raw|, raw[i..j]) && (raw + tail)[|raw|..] == tail
  {
    var s := raw + tail;
    assert s[..i] == raw[..i] && s[i..j] == raw[i..j] && s[j..|raw|] == raw[j..];
  }

  lemma {:induction false} SplitHolds(s: string)
    ensures Holds(s, KeepFields(SplitBars(s)))
    decreases |s|
  {
    var k := Find(s, '|');
    if k == |s| {
      assert s[..k] == s && SplitBars(s) == [s];
      hide *;
      OnlyField(s);
    } else {
      var first, rest := s[..k], s[k + 1..];
      assert SplitBars(s) == [first] + SplitBars(rest);
      assert s == first + ("|" + rest);
      SplitHolds(rest);
      hide *;
      BarThenRest(first, rest, SplitBars(rest));
    }
  }

  lemma OnlyField(raw: string)
    requires '|' !in raw
    ensures Holds(raw, KeepFields([raw]))
  {
    FieldThenRest(raw, "", []);
    assert raw + "" == raw && KeepFields([raw]) + [] == KeepFields([raw]);
  }

  lemma BarThenRest(raw: string, rest: string, raws: seq<string>)
    requires '|' !in raw && Holds(rest, KeepFields(raws))
    ensures Holds(raw + ("|" + rest), KeepFields([raw] + raws))
  {
    KeepFirst(raw, raws);
    hide Holds, KeepFields;
    HoldsAfterGap("|", rest, KeepFields(raws));
    FieldThenRest(raw, "|" + rest, KeepFields(raws));
  }

  lemma KeepFirst(raw: string, rest: seq<string>)
    ensures KeepFields([raw] + rest) == KeepFields([raw]) + KeepFields(rest)
  {
    assert ([raw] + rest)[1..] == rest;
  }

  lemma FieldsHeld(s: string)
    ensures Holds(s, Fields(s))
  {
    SplitHolds(StripBars(s));
    BarsStripped(s, Fields(s));
  }

  // ---- The whole layout ----

  /** Every field is broken into its pieces. */
  ghost predicate AllBroken(fields: seq<string>, pieces: seq<seq<string>>) {
    |pieces| == |fields| && forall i :: 0 <= i < |fields| ==> Broken(fields[i], pieces[i])
  }

  lemma OneBlock(word: string)
    requires |word| <= PAYLOAD_LIMIT
    ensures Blocks(word) == [word]
  {
  }

  lemma {:induction false} ShortBlocks(words: seq<string>)
    requires |JoinBy(words, " ")| <= PAYLOAD_LIMIT
    ensures AllBlocks(words) == words
  {
    if words != [] {
      OneBlock(words[0]);
      ShortBlocks(words[1..]);
    }
  }

  lemma {:induction false} JoinIsJoinBy(words: seq<string>)
    ensures JoinBy(words, " ") == Join(words)
  {
    if |words| > 1 {
      JoinIsJoinBy(words[1..]);
    }
  }

  lemma CandidatesBroken(field: string)
    requires Barless(field) && Tidy(field)
    ensures Broken(field, CandidatesOf(field))
  {
    var words := Words(field);
    if |field| > PAYLOAD_LIMIT {
      FieldWords(field);
      var lines := WordsFill(words, "", []);
      assert [] + AllBlocks(words) == AllBlocks(words);
      assert CandidatesOf(field) == JoinAll(lines, " ");
    } else {
      JoinWords(field);
      JoinIsJoinBy(words);
      ShortBlocks(words);
      OneLine(words, " ");
      JoinAllStep(words, [], " ");
      assert [words] + [] == [words] && CandidatesOf(field) == JoinAll([words], " ");
    }
  }

  lemma {:induction false} FieldsBroken(fields: seq<string>) returns (pieces: seq<seq<string>>)
    requires forall i :: 0 <= i < |fields| ==> Barless(fields[i]) && Tidy(fields[i])
    ensures AllBroken(fields, pieces) && Flatten(pieces) == AllCandidates(fields)
  {
    pieces := [];
    if fields != [] {
      var later := FieldsBroken(fields[1..]);
      CandidatesBroken(fields[0]);
      hide Broken, CandidatesOf, Barless, Tidy;
      pieces := [CandidatesOf(fields[0])] + later;
      FlattenStep(CandidatesOf(fields[0]), later);
      forall i | 0 <= i < |fields| ensures Broken(fields[i], pieces[i]) {
        assert i > 0 ==> Broken(fields[1..][i - 1], later[i - 1]);
      }
    }
  }

  lemma {:induction false} FieldsFill(candidates: seq<string>, current: string, group: seq<string>)
    returns (groups: seq<seq<string>>)
    requires Pieces(candidates) && Open(current, group, " | ")
    ensures Filled(groups, group + candidates, " | ") && PackFields(candidates, current) == JoinAll(groups, " | ")
    decreases |candidates|
  {
    if candidates == [] {
      groups := OpenLines(group);
      if group != [] { OneLine(group, " | "); }
      assert group + candidates == group;
      return;
    }
    var piece, rest := candidates[0], candidates[1..];
    assert Piece(piece) && piece != "" && |piece| <= PAYLOAD_LIMIT;
    assert group + candidates == group + [piece] + rest && group + candidates == group + ([piece] + rest);
    assert Pieces(rest);
    Extend(current, group, piece, " | ");
    hide Piece, Filled;
    var candidate := if current != "" then current + " | " + piece else piece;
    if current != "" && |candidate| > PAYLOAD_LIMIT {
      assert JoinBy([piece], " | ") == piece;
      var later := FieldsFill(rest, piece, [piece]);
      groups := [group] + later;
      LineBefore(group, later, [piece] + rest, " | ");
      JoinAllStep(group, later, " | ");
    } else {
      groups := FieldsFill(rest, candidate, group + [piece]);
    }
  }

  /** The fragments as they are read: numbered, each the pieces of its group with bars between them. */
  predicate Numbered(fragments: seq<string>, groups: seq<seq<string>>) {
    |fragments| == |groups|
    && forall i :: 0 <= i < |groups| ==> Headed(fragments[i], i + 1, |groups|, JoinBy(groups[i], " | "))
  }

  lemma ChunksLaidOut(normalized: string)
    returns (fields: seq<string>, pieces: seq<seq<string>>, groups: seq<seq<string>>)
    requires Tidy(normalized)
    ensures Holds(normalized, fields) && AllBroken(fields, pieces) && Filled(groups, Flatten(pieces), " | ")
    ensures Chunks(normalized) == JoinAll(groups, " | ")
  {
    fields := Fields(normalized);
    assert Chunks(normalized) == PackFields(AllCandidates(fields), "");
    hide Fields, AllCandidates, Chunks, Holds, Filled, AllBroken, PackFields, Tidy;
    FieldsInk(normalized);
    FieldsHeld(normalized);
    AllCandidatesPieces(fields);
    pieces := FieldsBroken(fields);
    groups := FieldsFill(AllCandidates(fields), "", []);
    assert [] + AllCandidates(fields) == AllCandidates(fields);
  }

  /**
   How a reply that is too long for one message is split: the fields between its bars, the words of each field filled
   into pieces, all the pieces in order filled into groups, and one numbered fragment for each group. It is refused
   exactly when there are none or more than 99.
   */
  lemma SplitExact(body: string) returns (fields: seq<string>, pieces: seq<seq<string>>, groups: seq<seq<string>>)
    requires |Squeeze(body)| > MAXIMUM_BODY
    ensures Holds(Squeeze(body), fields) && AllBroken(fields, pieces) && Filled(groups, Flatten(pieces), " | ")
    ensures SplitReplySpec(body).Ok? <==> 1 <= |groups| <= 99
    ensures SplitReplySpec(body).Ok? ==> Numbered(SplitReplySpec(body).value, groups)
  {
    var normalized := Squeeze(body);
    SqueezeIsTidy(body);
    fields, pieces, groups := ChunksLaidOut(normalized);
    var chunks := Chunks(normalized);
    hide Squeeze, Chunks, Holds, Filled, AllBroken, Headed, JoinBy;
    if SplitReplySpec(body).Ok? {
      var fragments := SplitReplySpec(body).value;
      forall i | 0 <= i < |groups| ensures Headed(fragments[i], i + 1, |groups|, JoinBy(groups[i], " | ")) {
        LabelHeads(i + 1, |chunks|, chunks[i]);
      }
    }
  }

  /** A reply that fits one message is not split. */
  lemma ShortStays(body: string)
    requires |Squeeze(body)| <= MAXIMUM_BODY
    ensures SplitReplySpec(body) == Ok([Squeeze(body)])
  {
  }

  // ---- There is only one such layout ----

  lemma {:induction false} JoinGrows(items: seq<string>, n: nat, separator: string)
    requires n < |items|
    ensures |JoinBy(items[..n + 1], separator)| <= |JoinBy(items, separator)|
    decreases |items| - n
  {
    if n + 1 == |items| {
      assert items[..n + 1] == items;
    } else {
      JoinGrows(items, n + 1, separator);
      JoinAppend(items[..n + 1], items[n + 1], separator);
      assert items[..n + 1] + [items[n + 1]] == items[..n + 2];
    }
  }

  lemma FirstLine(lines: seq<seq<string>>, items: seq<string>, separator: string)
    requires lines != [] && Filled(lines, items, separator)
    ensures 1 <= |lines[0]| <= |items| && lines[0] == items[..|lines[0]|]
    ensures Filled(lines[1..], items[|lines[0]|..], separator)
    ensures |JoinBy(lines[0], separator)| <= PAYLOAD_LIMIT
    ensures |lines[0]| < |items| ==>
      |JoinBy(lines[0], separator)| + |separator| + |items[|lines[0]|]| > PAYLOAD_LIMIT
  {
    hide JoinBy;
    var rest, later := lines[1..], items[|lines[0]|..];
    assert Full(lines, separator, 0);
    assert items == lines[0] + Flatten(rest);
    forall i | 0 <= i < |rest| ensures Full(rest, separator, i) {
      assert Full(lines, separator, i + 1);
    }
    if rest != [] {
      assert Full(lines, separator, 1);
      assert Flatten(rest)[0] == rest[0][0];
    }
  }

  lemma OneMoreFits(line: seq<string>, item: string, longer: seq<string>, separator: string)
    requires line != [] && line + [item] <= longer
    ensures |JoinBy(line, separator)| + |separator| + |item| <= |JoinBy(longer, separator)|
  {
    JoinGrows(longer, |line|, separator);
    JoinAppend(line, item, separator);
    assert longer[..|line| + 1] == line + [item];
  }

  /** The shorter of two first lines would have had room for one item more. */
  lemma FirstLinesEqual(a: seq<seq<string>>, b: seq<seq<string>>, items: seq<string>, separator: string)
    requires a != [] && b != [] && Filled(a, items, separator) && Filled(b, items, separator)
    ensures |a[0]| >= |b[0]|
  {
    FirstLine(a, items, separator);
    FirstLine(b, items, separator);
    var n := |a[0]|;
    hide Filled, JoinBy;
    if n < |b[0]| {
      OneMoreFits(a[0], items[n], b[0], separator);
    }
  }

  lemma {:induction false} FilledUnique(a: seq<seq<string>>, b: seq<seq<string>>, items: seq<string>, separator: string)
    requires Filled(a, items, separator) && Filled(b, items, separator)
    ensures a == b
    decreases |items|
  {
    if items == [] {
      if a != [] { FirstLine(a, items, separator); }
      if b != [] { FirstLine(b, items, separator); }
    } else {
      FirstLine(a, items, separator);
      FirstLine(b, items, separator);
      FirstLinesEqual(a, b, items, separator);
      FirstLinesEqual(b, a, items, separator);
      hide Filled;
      FilledUnique(a[1..], b[1..], items[|a[0]|..], separator);
      assert a == [a[0]] + a[1..] && b == [b[0]] + b[1..];
    }
  }

  lemma FieldAtUnique(s: string, i: nat, j: nat, k: nat, field: string, i': nat, j': nat, k': nat, field': string)
    requires FieldAt(s, i, j, k, field) && FieldAt(s, i', j', k', field')
    ensures i == i' && j == j' && k == k' && field == field'
  {
    FieldAtBefore(s, i, j, k, field, i', j', k', field');
    FieldAtBefore(s, i', j', k', field', i, j, k, field);
  }

  lemma FieldAtInked(s: string, i: nat, j: nat, k: nat, field: string)
    requires FieldAt(s, i, j, k, field)
    ensures Inked(s[i]) && (forall x :: 0 <= x < i ==> !Inked(s[x])) && (forall x :: i <= x < k ==> s[x] != '|')
    ensures !IsSpace(s[j - 1]) && (forall x :: j <= x < k ==> IsSpace(s[x])) && (k < |s| ==> s[k] == '|')
  {
    hide IsSpace;
    assert forall x :: 0 <= x < i ==> s[..i][x] == s[x];
    assert forall x :: j <= x < k ==> s[x] == s[j..k][x - j];
    forall x | i <= x < j ensures s[x] != '|' { assert s[x] == field[x - i]; }
    assert !IsSpace('|') by { BarIsInk(); }
  }

  lemma BarIsInk()
    ensures !IsSpace('|')
  {
  }

  lemma FieldAtBefore(s: string, i: nat, j: nat, k: nat, field: string, i': nat, j': nat, k': nat, field': string)
    requires FieldAt(s, i, j, k, field) && FieldAt(s, i', j', k', field')
    ensures i <= i' && j <= j' && k <= k'
  {
    FieldAtInked(s, i, j, k, field);
    FieldAtInked(s, i', j', k', field');
    hide Inked, IsSpace, Gap, Blank;
    assert i <= i';
    assert i' <= i;
    assert k <= k';
    assert k' <= k;
    assert !IsSpace(s[j - 1]) && j - 1 < k';
  }

  lemma {:induction false} HoldsUnique(s: string, a: seq<string>, b: seq<string>)
    requires Holds(s, a) && Holds(s, b)
    ensures a == b
    decreases |a|
  {
    if a != [] && b != [] {
      var i, j, k := FirstHeld(s, a);
      var i', j', k' := FirstHeld(s, b);
      FieldAtUnique(s, i, j, k, a[0], i', j', k', b[0]);
      HoldsUnique(s[k..], a[1..], b[1..]);
      assert a == [a[0]] + a[1..] && b == [b[0]] + b[1..];
    } else if a != [] {
      var i, j, k := FirstHeld(s, a);
      FieldAtInked(s, i, j, k, a[0]);
    } else if b != [] {
      var i, j, k := FirstHeld(s, b);
      FieldAtInked(s, i, j, k, b[0]);
    }
  }

  lemma BrokenUnique(field: string, a: seq<string>, b: seq<string>)
    requires Broken(field, a) && Broken(field, b)
    ensures a == b
  {
    var items := AllBlocks(Words(field));
    var x :| Filled(x, items, " ") && a == JoinAll(x, " ");
    var y :| Filled(y, items, " ") && b == JoinAll(y, " ");
    FilledUnique(x, y, items, " ");
  }

  /** No other fields, pieces and groups fit that description of a reply. */
  lemma LayoutUnique(text: string, fields: seq<string>, pieces: seq<seq<string>>, groups: seq<seq<string>>,
                     fields': seq<string>, pieces': seq<seq<string>>, groups': seq<seq<string>>)
    requires Holds(text, fields) && AllBroken(fields, pieces) && Filled(groups, Flatten(pieces), " | ")
    requires Holds(text, fields') && AllBroken(fields', pieces') && Filled(groups', Flatten(pieces'), " | ")
    ensures fields == fields' && pieces == pieces' && groups == groups'
  {
    HoldsUnique(text, fields, fields');
    forall i | 0 <= i < |fields| ensures pieces[i] == pieces'[i] {
      BrokenUnique(fields[i], pieces[i], pieces'[i]);
    }
    assert pieces == pieces';
    FilledUnique(groups, groups', Flatten(pieces), " | ");
  }
}
