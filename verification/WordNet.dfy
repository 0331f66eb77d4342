/** Reading the synset lines of a WordNet data file. */
module WordNet {
  import opened Common
  import opened Strings
  import Text

  datatype Entry = Entry(normalized: string, word: string, partOfSpeech: string, definition: string,
      examples: seq<string>, sourceRef: string)

  datatype Error = MissingGloss | InvalidHeader | InvalidWordCount

  /** A comment or an entry without a definition is skipped. A negative word count makes the
      allocation of the result panic. */
  datatype Outcome = Skipped | Failed(error: Error) | Panicked | Parsed(entries: seq<Entry>)

  /** What a line of the database says. A gloss is a list of clauses, some of them quoted. */
  datatype Marker = NoMarker | Attributive | Predicative | Postpositive

  datatype Lemma = Lemma(word: string, marker: Marker, lexId: string)

  datatype Clause = Definition(text: string) | Example(text: string)

  datatype Synset = Synset(offset: string, lexFile: string, kind: string, words: seq<Lemma>, pointers: seq<string>,
      gloss: seq<Clause>)

  // ---------- parsing ----------

  /** strconv.ParseInt(s, 16, 32). */
  function ParseHex(s: string): Option<int> {
    var signed := s != "" && (s[0] == '+' || s[0] == '-');
    var digits := if signed then s[1..] else s;
    match Text.ParseDigits(digits, 16)
    case None => None
    case Some(n) =>
      var value := if signed && s[0] == '-' then -(n as int) else n as int;
      if digits != "" && -0x8000_0000 <= value < 0x8000_0000 then Some(value) else None
  }

  function Strip(word: string): string {
    TrimSuffix(TrimSuffix(TrimSuffix(word, "(a)"), "(p)"), "(ip)")
  }

  predicate Quoted(part: string) { |part| >= 2 && part[0] == '"' && part[|part| - 1] == '"' }

  function Unquoted(part: string): string { Trim(part, c => c == '"') }

  /** The parts of a gloss that are not quoted, and the quoted ones without their quotes. */
  function Definitions(parts: seq<string>): seq<string> {
    if parts == [] then []
    else
      var (n, part) := (|parts| - 1, TrimSpace(parts[|parts| - 1]));
      Definitions(parts[..n]) + if Quoted(part) then [] else [part]
  }

  function Examples(parts: seq<string>): seq<string> {
    if parts == [] then []
    else
      var (n, part) := (|parts| - 1, TrimSpace(parts[|parts| - 1]));
      Examples(parts[..n]) + if Quoted(part) then [Unquoted(part)] else []
  }

  function GlossParts(gloss: string): seq<string> { Split(TrimSpace(gloss), "; ") }

  function Code(partOfSpeech: string): string {
    if partOfSpeech == "noun" then "n"
    else if partOfSpeech == "verb" then "v"
    else if partOfSpeech == "adjective" then "a"
    else if partOfSpeech == "adverb" then "r"
    else "x"
  }

  method StripAdjectiveMarker(word: string) returns (bare: string)
    ensures bare == Strip(word)
  {
    bare := word;
    var suffixes := ["(a)", "(p)", "(ip)"];
    for i := 0 to |suffixes|
      invariant i == 0 ==> bare == word
      invariant i == 1 ==> bare == TrimSuffix(word, "(a)")
      invariant i == 2 ==> bare == TrimSuffix(TrimSuffix(word, "(a)"), "(p)")
      invariant i == 3 ==> bare == Strip(word)
    {
      bare := TrimSuffix(bare, suffixes[i]);
    }
  }

  method ParseGloss(gloss: string) returns (definition: string, examples: seq<string>)
    ensures definition == Join(Definitions(GlossParts(gloss)), "; ")
    ensures examples == Examples(GlossParts(gloss))
  {
    var parts := Split(TrimSpace(gloss), "; ");
    var definitions := [];
    examples := [];
    for i := 0 to |parts|
      invariant definitions == Definitions(parts[..i]) && examples == Examples(parts[..i])
    {
      assert parts[..i + 1][..i] == parts[..i];
      var part := TrimSpace(parts[i]);
      if Quoted(part) {
        examples := examples + [Unquoted(part)];
        continue;
      }
      definitions := definitions + [part];
    }
    assert parts[..|parts|] == parts;
    definition := Join(definitions, "; ");
  }

  method ParseDataLine(line: string, partOfSpeech: string, lower: string -> string) returns (outcome: Outcome)
    ensures outcome == ParsedLine(line, partOfSpeech, lower)
  {
    hide StartsWith, TrimSpace, Cut, Fields, ParseHex, Definitions, Examples, GlossParts, WordsIn, EntriesFor, Join;
    if StartsWith(line, "  ") || TrimSpace(line) == "" {
      return Skipped;
    }
    var sections := Cut(line, " | ");
    if sections.None? {
      return Failed(MissingGloss);
    }
    var fields := Fields(sections.value.0);
    if |fields| < 4 {
      return Failed(InvalidHeader);
    }
    var wordCount := ParseHex(fields[3]);
    if wordCount.None? || |fields| < 4 + wordCount.value * 2 {
      return Failed(InvalidWordCount);
    }
    var definition, examples := ParseGloss(sections.value.1);
    if definition == "" {
      return Skipped;
    }
    if wordCount.value < 0 {
      return Panicked;
    }
    var entries := EntriesOfFields(fields, wordCount.value, partOfSpeech, definition, examples, lower);
    outcome := Parsed(entries);
  }

  method EntriesOfFields(fields: seq<string>, wordCount: nat, partOfSpeech: string, definition: string,
      examples: seq<string>, lower: string -> string)
    returns (entries: seq<Entry>)
    requires 4 + wordCount * 2 <= |fields|
    ensures entries == EntriesFor(WordsIn(fields, wordCount), fields[0], partOfSpeech, definition, examples, lower)
  {
    hide Strip, Code;
    entries := [];
    for index := 0 to wordCount
      invariant entries == EntriesFor(WordsIn(fields, index), fields[0], partOfSpeech, definition, examples, lower)
    {
      WordInPlace(fields, index + 1, index);
      assert WordsIn(fields, index + 1)[..index] == WordsIn(fields, index);
      hide WordsIn;
      var word := StripAdjectiveMarker(fields[4 + index * 2]);
      entries := entries + [Entry(lower(word), word, partOfSpeech, definition, examples, Code(partOfSpeech) + ":"
          + fields[0])];
    }
  }

  function EntriesFor(words: seq<string>, offset: string, partOfSpeech: string, definition: string,
      examples: seq<string>, lower: string -> string): seq<Entry> {
    if words == [] then []
    else
      var (n, word) := (|words| - 1, words[|words| - 1]);
      EntriesFor(words[..n], offset, partOfSpeech, definition, examples, lower)
      + [Entry(lower(word), word, partOfSpeech, definition, examples, Code(partOfSpeech) + ":" + offset)]
  }

  function WordsIn(fields: seq<string>, count: nat): seq<string>
    requires 4 + count * 2 <= |fields|
  {
    seq(count, i requires 0 <= i < count => Strip(fields[4 + i * 2]))
  }

  function ParsedLine(line: string, partOfSpeech: string, lower: string -> string): Outcome {
    if StartsWith(line, "  ") || TrimSpace(line) == "" then Skipped
    else match Cut(line, " | ")
      case None => Failed(MissingGloss)
      case Some((header, gloss)) =>
        var (fields, parts) := (Fields(header), GlossParts(gloss));
        if |fields| < 4 then Failed(InvalidHeader)
        else match ParseHex(fields[3])
          case None => Failed(InvalidWordCount)
          case Some(count) =>
            var definition := Join(Definitions(parts), "; ");
            if |fields| < 4 + count * 2 then Failed(InvalidWordCount)
            else if definition == "" then Skipped
            else if count < 0 then Panicked
            else Parsed(EntriesFor(WordsIn(fields, count), fields[0], partOfSpeech, definition, Examples(parts), lower))
  }

  // ---------- which line has which outcome ----------

  predicate Ignored(line: string) { StartsWith(line, "  ") || TrimSpace(line) == "" }

  /** Only a line without a separator anywhere lacks a gloss; any other that is not ignored is
      a header, the first separator and a gloss. */
  lemma MissingGlossIff(line: string, partOfSpeech: string, lower: string -> string)
    ensures ParsedLine(line, partOfSpeech, lower) == Failed(MissingGloss) <==> !Ignored(line) && !Occurs(line, " | ")
    ensures Occurs(line, " | ") ==> exists header, gloss :: line == header + " | " + gloss && Free(header, " | ")
  {
    CutFindsNoneIff(line, " | ");
    if Cut(line, " | ").Some? {
      CutIsFirst(line, " | ");
    }
    hide Cut, Fields, ParseHex, TrimSpace, Definitions, Examples, EntriesFor, WordsIn, Occurs, Free;
  }

  /** The header's fourth field is a number its fields leave room for. */
  predicate CountFits(fields: seq<string>) {
    |fields| >= 4 && ParseHex(fields[3]).Some? && |fields| >= 4 + ParseHex(fields[3]).value * 2
  }

  /** No clause outside quotes says anything. */
  predicate NoDefinition(parts: seq<string>) {
    |Definitions(parts)| <= 1 && forall d :: d in Definitions(parts) ==> d == ""
  }

  /** The outcome of a line by its header - all before the first separator - and its gloss.
      A negative count panics, and nothing else does. */
  lemma LineOutcomes(header: string, gloss: string, partOfSpeech: string, lower: string -> string)
    requires Free(header, " | ") && !Ignored(header + " | " + gloss)
    ensures var (outcome, fields, parts) := (ParsedLine(header + " | " + gloss, partOfSpeech, lower), Fields(header),
        GlossParts(gloss));
      && (outcome == Failed(InvalidHeader) <==> |fields| < 4)
      && (outcome == Failed(InvalidWordCount) <==> |fields| >= 4 && !CountFits(fields))
      && (outcome == Skipped <==> CountFits(fields) && NoDefinition(parts))
      && (outcome == Panicked <==> CountFits(fields) && !NoDefinition(parts) && ParseHex(fields[3]).value < 0)
      && (outcome.Parsed? <==> CountFits(fields) && !NoDefinition(parts) && ParseHex(fields[3]).value >= 0)
  {
    CutAtFirst(header, " | ", gloss);
    EmptyJoin(Definitions(GlossParts(gloss)), "; ");
    hide Cut, Fields, ParseHex, TrimSpace, Definitions, Examples, EntriesFor, WordsIn, Strip, GlossParts, Join, Free,
        StartsWith;
  }

  /** What parses has one entry for each word counted, with the word at its place and one
      definition, which is not empty. */
  lemma ParsedEntries(header: string, gloss: string, partOfSpeech: string, lower: string -> string, k: nat)
    requires Free(header, " | ") && !Ignored(header + " | " + gloss)
    requires ParsedLine(header + " | " + gloss, partOfSpeech, lower).Parsed?
    ensures var (entries, fields, parts) := (ParsedLine(header + " | " + gloss, partOfSpeech, lower).entries,
        Fields(header), GlossParts(gloss));
      && |fields| >= 4 && ParseHex(fields[3]) == Some(|entries|) && |fields| >= 4 + |entries| * 2
      && (k < |entries| ==>
            var e := entries[k];
            && e.word == Strip(fields[4 + k * 2]) && e.normalized == lower(e.word) && e.partOfSpeech == partOfSpeech
            && e.sourceRef == (if partOfSpeech == "noun" then "n:" else if partOfSpeech == "verb" then "v:"
                               else if partOfSpeech == "adjective" then "a:" else if partOfSpeech == "adverb" then "r:"
                               else "x:") + fields[0]
            && e.definition == Join(Definitions(parts), "; ") != "" && e.examples == Examples(parts))
  {
    var (fields, parts) := (Fields(header), GlossParts(gloss));
    var count := ParsedLineIs(header, gloss, partOfSpeech, lower);
    EmptyJoin(Definitions(parts), "; ");
    hide *;
    EntriesOneByOne(WordsIn(fields, count), fields[0], partOfSpeech, Join(Definitions(parts), "; "), Examples(parts),
        lower);
    WordInPlace(fields, count, k);
    Reference(partOfSpeech, fields[0]);
  }

  lemma Reference(partOfSpeech: string, offset: string)
    ensures Code(partOfSpeech) + ":" + offset ==
            (if partOfSpeech == "noun" then "n:" else if partOfSpeech == "verb" then "v:"
             else if partOfSpeech == "adjective" then "a:" else if partOfSpeech == "adverb" then "r:"
             else "x:") + offset
  {
    assert "n" + ":" == "n:" && "v" + ":" == "v:" && "a" + ":" == "a:" && "r" + ":" == "r:" && "x" + ":" == "x:";
  }

  lemma WordInPlace(fields: seq<string>, count: nat, k: nat)
    requires 4 + count * 2 <= |fields|
    ensures |WordsIn(fields, count)| == count && (k < count ==> WordsIn(fields, count)[k] == Strip(fields[4 + k * 2]))
  {
    hide Strip;
  }

  lemma ParsedLineIs(header: string, gloss: string, partOfSpeech: string, lower: string -> string)
    returns (count: nat)
    requires Free(header, " | ") && !Ignored(header + " | " + gloss)
    requires ParsedLine(header + " | " + gloss, partOfSpeech, lower).Parsed?
    ensures var (fields, definition, examples) :=
        (Fields(header), Join(Definitions(GlossParts(gloss)), "; "), Examples(GlossParts(gloss)));
      && 4 + count * 2 <= |fields| && ParseHex(fields[3]) == Some(count) && definition != ""
      && ParsedLine(header + " | " + gloss, partOfSpeech, lower)
         == Parsed(EntriesFor(WordsIn(fields, count), fields[0], partOfSpeech, definition, examples, lower))
  {
    CutAtFirst(header, " | ", gloss);
    hide Cut, Fields, ParseHex, TrimSpace, Definitions, Examples, EntriesFor, WordsIn, GlossParts, Join, Free,
        StartsWith;
    count := ParseHex(Fields(header)[3]).value;
  }

  lemma EmptyJoin(parts: seq<string>, sep: string)
    requires sep != ""
    ensures Join(parts, sep) == "" <==> |parts| <= 1 && forall d :: d in parts ==> d == ""
  {
    assert |parts| == 1 ==> parts[0] in parts;
  }

  lemma {:induction false} EntriesOneByOne(words: seq<string>, offset: string, partOfSpeech: string,
      definition: string, examples: seq<string>, lower: string -> string)
    ensures var entries := EntriesFor(words, offset, partOfSpeech, definition, examples, lower);
      && |entries| == |words|
      && forall k :: 0 <= k < |words| ==>
           entries[k] == Entry(lower(words[k]), words[k], partOfSpeech, definition, examples, Code(partOfSpeech) + ":"
               + offset)
    decreases |words|
  {
    if words != [] {
      hide Code;
      EntriesOneByOne(words[..|words| - 1], offset, partOfSpeech, definition, examples, lower);
    }
  }

  /** A line that panics. */
  lemma NegativeCountPanics(partOfSpeech: string, lower: string -> string)
    ensures ParsedLine("1 03 n -1 | y", partOfSpeech, lower) == Panicked
  {
    var fields := ["1", "03", "n", "-1"];
    var header := Join(fields, " ");
    assert Join(fields[3..], " ") == "-1";
    assert Join(fields[2..], " ") == "n -1" && Join(fields[1..], " ") == "03 n -1" && header == "1 03 n -1";
    assert header + " | " + "y" == "1 03 n -1 | y";
    assert forall f :: f in fields ==> Field(f);
    HeaderIsFree(fields);
    FieldsUndoJoin(fields);
    LineIsNotBlank("1", fields, "y");
    OneIsHex();
    YIsDefined();
    hide Fields, ParseHex, TrimSpace, GlossParts, StartsWith;
    LineOutcomes(header, "y", partOfSpeech, lower);
  }

  lemma OneIsHex()
    ensures ParseHex("-1") == Some(-1)
  {
    assert "-1"[1..] == "1" && "1"[..0] == "";
    assert Text.ParseDigits("1", 16) == Some(1);
  }

  lemma YIsDefined()
    ensures !NoDefinition(GlossParts("y"))
  {
    TrimNothing("y", c => Space(c));
    assert Free("y", "; ") by { assert ("y" + "; ")[0..][0] == 'y'; }
    SplitWithout("y", "; ");
    assert GlossParts("y") == ["y"] && ["y"][..0] == [];
    assert Definitions(["y"]) == [] + ["y"];
    assert "y" in Definitions(["y"]);
  }

  // ---------- printing ----------

  function MarkerText(m: Marker): string {
    match m case NoMarker => "" case Attributive => "(a)" case Predicative => "(p)" case Postpositive => "(ip)"
  }

  function WordFields(words: seq<Lemma>): seq<string> {
    if words == [] then []
    else
      var (n, last) := (|words| - 1, words[|words| - 1]);
      WordFields(words[..n]) + [last.word + MarkerText(last.marker), last.lexId]
  }

  function ClauseText(c: Clause): string { if c.Example? then "\"" + c.text + "\"" else c.text }

  function GlossTexts(gloss: seq<Clause>): seq<string> {
    seq(|gloss|, i requires 0 <= i < |gloss| => ClauseText(gloss[i]))
  }

  function HeaderFields(s: Synset): seq<string>
    requires |s.words| < 256
  {
    [s.offset, s.lexFile, s.kind, Text.Fixed(|s.words|, 16, 2)] + WordFields(s.words) + s.pointers
  }

  /** A line of the data file: fields, a bar, the gloss. */
  function Print(s: Synset): string
    requires |s.words| < 256
  {
    Join(HeaderFields(s), " ") + " | " + Join(GlossTexts(s.gloss), "; ")
  }

  ghost predicate Field(s: string) { Word(s) && s != "|" }

  /** The clauses a semicolon separates: trimmed, without a separator inside, and a definition
      does not look like an example. */
  ghost predicate PlainClause(c: Clause) {
    && Free(ClauseText(c), "; ")
    && (c.Definition? ==> c.text != "" && Trimmed(c.text, x => Space(x)) && !Quoted(c.text))
    && (c.Example? ==> Trimmed(c.text, x => x == '"'))
  }

  ghost predicate PlainWord(l: Lemma) {
    && Field(l.word) && Field(l.lexId)
    && !EndsWith(l.word, "(a)") && !EndsWith(l.word, "(p)") && !EndsWith(l.word, "(ip)")
  }

  ghost predicate WellFormed(s: Synset) {
    && Field(s.offset) && Field(s.lexFile) && Field(s.kind) && |s.words| < 256
    && (forall l :: l in s.words ==> PlainWord(l))
    && (forall p :: p in s.pointers ==> Field(p))
    && (forall c :: c in s.gloss ==> PlainClause(c))
    && exists c :: c in s.gloss && c.Definition?
  }

  function DefinitionTexts(gloss: seq<Clause>): seq<string> {
    if gloss == [] then []
    else DefinitionTexts(gloss[..|gloss| - 1]) + if gloss[|gloss| - 1].Definition? then [gloss[|gloss| - 1].text]
        else []
  }

  function ExampleTexts(gloss: seq<Clause>): seq<string> {
    if gloss == [] then []
    else ExampleTexts(gloss[..|gloss| - 1]) + if gloss[|gloss| - 1].Example? then [gloss[|gloss| - 1].text] else []
  }

  /** The entries a synset stands for: one for each word, with the whole gloss. */
  function EntriesOf(s: Synset, partOfSpeech: string, lower: string -> string): seq<Entry> {
    EntriesFor(seq(|s.words|, i requires 0 <= i < |s.words| => s.words[i].word), s.offset, partOfSpeech,
               Join(DefinitionTexts(s.gloss), "; "), ExampleTexts(s.gloss), lower)
  }

  // ---------- parsing undoes printing ----------

  lemma SuffixComesOff(w: string, suffix: string)
    ensures EndsWith(w + suffix, suffix) && TrimSuffix(w + suffix, suffix) == w
  {
    assert (w + suffix)[|w|..] == suffix && (w + suffix)[..|w|] == w;
  }

  lemma SuffixesDiffer(w: string, suffix: string, other: string, k: nat)
    requires 0 < k <= |suffix| && k <= |other| && suffix[|suffix| - k] != other[|other| - k]
    ensures !EndsWith(w + suffix, other)
  {
    var s := w + suffix;
    assert |other| <= |s| ==> s[|s| - |other|..][|other| - k] == s[|s| - k];
    assert s[|s| - k] == suffix[|suffix| - k];
  }

  lemma MarkersAreStripped(l: Lemma)
    requires PlainWord(l)
    ensures Strip(l.word + MarkerText(l.marker)) == l.word
  {
    hide Field, EndsWith;
    var w := l.word;
    match l.marker
    case NoMarker => assert w + "" == w;
    case Attributive => SuffixComesOff(w, "(a)");
    case Predicative =>
      SuffixComesOff(w, "(p)");
      SuffixesDiffer(w, "(p)", "(a)", 2);
    case Postpositive =>
      SuffixComesOff(w, "(ip)");
      SuffixesDiffer(w, "(ip)", "(a)", 2);
      SuffixesDiffer(w, "(ip)", "(p)", 3);
  }

  lemma MarkedWordsAreFields(l: Lemma)
    requires PlainWord(l)
    ensures Field(l.word + MarkerText(l.marker))
  {
    assert l.word + MarkerText(l.marker) == "|" ==> l.word == "|";
  }

  lemma {:induction false} WordFieldsAt(words: seq<Lemma>, i: nat)
    requires i < |words|
    ensures |WordFields(words)| == 2 * |words| && WordFields(words)[2 * i] ==
        words[i].word + MarkerText(words[i].marker)
    decreases |words|
  {
    var n := |words| - 1;
    if n > 0 {
      WordFieldsAt(words[..n], if i < n then i else 0);
      hide MarkerText;
      assert i < n ==> WordFields(words)[2 * i] == WordFields(words[..n])[2 * i];
    }
  }

  lemma {:induction false} WordFieldsAreFields(words: seq<Lemma>)
    requires forall l :: l in words ==> PlainWord(l)
    ensures |WordFields(words)| == 2 * |words| && forall f :: f in WordFields(words) ==> Field(f)
  {
    if words != [] {
      var n := |words| - 1;
      assert words[n] in words;
      WordFieldsAreFields(words[..n]);
      MarkedWordsAreFields(words[n]);
      hide PlainWord, Field, MarkerText;
    }
  }

  lemma ClauseIsRead(c: Clause)
    requires PlainClause(c)
    ensures TrimSpace(ClauseText(c)) == ClauseText(c) && ClauseText(c) != ""
    ensures Quoted(ClauseText(c)) <==> c.Example?
    ensures c.Example? ==> Unquoted(ClauseText(c)) == c.text
  {
    var (text, quote) := (ClauseText(c), x => x == '"');
    TrimNothing(text, x => Space(x));
    if c.Example? {
      UnquotedExample(c.text);
    }
  }

  lemma UnquotedExample(text: string)
    requires Trimmed(text, x => x == '"')
    ensures Unquoted("\"" + text + "\"") == text
  {
    var (quoted, quote) := ("\"" + text + "\"", (x => x == '"'));
    assert quoted[1..] == text + "\"";
    if text == "" {
      assert quoted[1..] == "\"" && TrimLeft("\"", quote) == "";
    } else {
      assert TrimLeft(quoted, quote) == text + "\"";
      assert (text + "\"")[..|text|] == text;
      assert TrimRight(text + "\"", quote) == TrimRight(text, quote) == text;
    }
  }

  lemma {:induction false} ClausesAreRead(gloss: seq<Clause>)
    requires forall c :: c in gloss ==> PlainClause(c)
    ensures Definitions(GlossTexts(gloss)) == DefinitionTexts(gloss)
        && Examples(GlossTexts(gloss)) == ExampleTexts(gloss)
  {
    if gloss != [] {
      var n := |gloss| - 1;
      assert gloss[n] in gloss;
      ClausesAreRead(gloss[..n]);
      ClauseIsRead(gloss[n]);
      assert GlossTexts(gloss)[..n] == GlossTexts(gloss[..n]);
    }
  }

  lemma {:induction false} SomeDefinition(gloss: seq<Clause>, c: Clause)
    requires c in gloss && c.Definition?
    ensures c.text in DefinitionTexts(gloss)
  {
    var n := |gloss| - 1;
    if c in gloss[..n] {
      SomeDefinition(gloss[..n], c);
    }
  }

  lemma {:induction false} JoinIsNotEmpty(parts: seq<string>, part: string, sep: string)
    requires part in parts && part != "" && sep != ""
    ensures Join(parts, sep) != ""
  {
  }

  /** Joined parts start with the first and end with the last of them. */
  lemma {:induction false} JoinedEnds(parts: seq<string>, sep: string) returns (head: string, tail: string)
    requires parts != []
    ensures Join(parts, sep) == parts[0] + tail == head + parts[|parts| - 1]
  {
    if |parts| == 1 {
      head, tail := "", "";
    } else {
      var rest := Join(parts[1..], sep);
      head, tail := JoinedEnds(parts[1..], sep);
      assert rest == head + parts[|parts| - 1];
      head, tail := parts[0] + sep + head, sep + rest;
    }
  }

  lemma GlossIsRead(gloss: seq<Clause>)
    requires gloss != [] && forall c :: c in gloss ==> PlainClause(c)
    ensures GlossParts(Join(GlossTexts(gloss), "; ")) == GlossTexts(gloss)
  {
    var texts := GlossTexts(gloss);
    forall t | t in texts ensures t != "" && Free(t, "; ") && Trimmed(t, x => Space(x)) {
      var i :| 0 <= i < |gloss| && texts[i] == t;
      assert gloss[i] in gloss;
      ClauseIsRead(gloss[i]);
      hide Quoted, Unquoted;
      TrimNothing(t, x => Space(x));
    }
    hide Free, PlainClause, ClauseText, GlossTexts, Space;
    var head, tail := JoinedEnds(texts, "; ");
    var joined := Join(texts, "; ");
    assert texts[0] in texts && texts[|texts| - 1] in texts;
    assert joined[0] == texts[0][0] && joined[|joined| - 1] == texts[|texts| - 1][|texts[|texts| - 1]| - 1];
    TrimNothing(joined, x => Space(x));
    SplitUndoesJoin(texts, "; ");
  }

  /** No place in the header can start the separator of the gloss. */
  lemma {:induction false} HeaderIsFree(fields: seq<string>)
    requires fields != [] && forall f :: f in fields ==> Field(f)
    ensures Free(Join(fields, " "), " | ")
  {
    assert fields[0] in fields;
    var (first, s) := (fields[0], Join(fields, " "));
    forall i | 0 <= i < |first| ensures !StartsWith((s + " | ")[i..], " | ") {
      assert (s + " | ")[i..][0] == first[i];
    }
    if |fields| > 1 {
      var rest := Join(fields[1..], " ");
      HeaderIsFree(fields[1..]);
      assert s + " | " == first + (" " + (rest + " | "));
      forall i | |first| <= i < |s| ensures !StartsWith((s + " | ")[i..], " | ") {
        var k := i - |first| - 1;
        if k >= 0 {
          assert (s + " | ")[i..] == (rest + " | ")[k..];
        } else {
          assert (s + " | ")[i..] == " " + (rest + " | ");
          BarIsNotAlone(fields[1..]);
        }
      }
    }
  }

  lemma BarIsNotAlone(fields: seq<string>)
    requires fields != [] && forall f :: f in fields ==> Field(f)
    ensures !StartsWith(" " + (Join(fields, " ") + " | "), " | ")
  {
    var (first, s) := (fields[0], Join(fields, " "));
    assert first in fields;
    assert s[..|first|] == first;
    assert (" " + (s + " | "))[1] == first[0];
    if |first| > 1 {
      assert (" " + (s + " | "))[2] == first[1];
    }
    if first[0] == '|' {
      assert |first| > 1 || first == "|";
    }
  }

  lemma CountIsRead(n: nat)
    requires n < 256
    ensures ParseHex(Text.Fixed(n, 16, 2)) == Some(n) && Field(Text.Fixed(n, 16, 2))
  {
    assert Text.Pow(16, 2) == 256;
    Text.FixedRoundTrip(n, 16, 2);
    Text.FixedIsDigits(n, 16, 2);
    hide Text.ParseDigits, Text.Fixed, ParseHex, Text.AllIn, Field;
    DigitsAreRead(Text.Fixed(n, 16, 2), n);
  }

  lemma DigitsAreRead(text: string, n: nat)
    requires |text| == 2 && Text.AllIn(text, 16) && Text.ParseDigits(text, 16) == Some(n) && n < 256
    ensures ParseHex(text) == Some(n) && Field(text)
  {
    hide Text.ParseDigits;
  }

  /** Parsing undoes printing: a well-formed synset's line yields its words, each with the
      definitions and the examples in their order. */
  lemma ParseUndoesPrint(s: Synset, partOfSpeech: string, lower: string -> string)
    requires WellFormed(s)
    ensures ParsedLine(Print(s), partOfSpeech, lower) == Parsed(EntriesOf(s, partOfSpeech, lower))
    ensures var entries := EntriesOf(s, partOfSpeech, lower);
      && |entries| == |s.words|
      && forall k :: 0 <= k < |entries| ==>
           && entries[k].word == s.words[k].word && entries[k].normalized == lower(s.words[k].word)
           && entries[k].definition == Join(DefinitionTexts(s.gloss), "; ")
           && entries[k].examples == ExampleTexts(s.gloss) && entries[k].partOfSpeech == partOfSpeech
           && entries[k].sourceRef ==
              (if partOfSpeech == "noun" then "n:" else if partOfSpeech == "verb" then "v:"
               else if partOfSpeech == "adjective" then "a:" else if partOfSpeech == "adverb" then "r:"
               else "x:") + s.offset
  {
    var (fields, texts) := (HeaderFields(s), GlossTexts(s.gloss));
    hide Free, Fields, StartsWith, TrimSpace, Definitions, Examples, Strip;
    var (header, gloss) := (Join(fields, " "), Join(texts, "; "));
    HeaderIsRead(s);
    HeaderIsFree(fields);
    CutAtFirst(header, " | ", gloss);
    FieldsUndoJoin(fields);
    GlossIsRead(s.gloss);
    ClausesAreRead(s.gloss);
    var c :| c in s.gloss && c.Definition?;
    SomeDefinition(s.gloss, c);
    JoinIsNotEmpty(DefinitionTexts(s.gloss), c.text, "; ");
    LineIsNotBlank(s.offset, fields, gloss);
    WordsAreRead(s);
    EntriesOfSynset(s, partOfSpeech, lower);
    hide Cut, ParseHex, GlossParts, Join, EntriesFor, HeaderFields, GlossTexts, Code;
  }

  lemma EntriesOfSynset(s: Synset, partOfSpeech: string, lower: string -> string)
    ensures var entries := EntriesOf(s, partOfSpeech, lower);
      && |entries| == |s.words|
      && forall k :: 0 <= k < |entries| ==>
           && entries[k].word == s.words[k].word && entries[k].normalized == lower(s.words[k].word)
           && entries[k].definition == Join(DefinitionTexts(s.gloss), "; ")
           && entries[k].examples == ExampleTexts(s.gloss) && entries[k].partOfSpeech == partOfSpeech
           && entries[k].sourceRef ==
              (if partOfSpeech == "noun" then "n:" else if partOfSpeech == "verb" then "v:"
               else if partOfSpeech == "adjective" then "a:" else if partOfSpeech == "adverb" then "r:"
               else "x:") + s.offset
  {
    Reference(partOfSpeech, s.offset);
    EntriesOneByOne(seq(|s.words|, i requires 0 <= i < |s.words| => s.words[i].word), s.offset, partOfSpeech,
                    Join(DefinitionTexts(s.gloss), "; "), ExampleTexts(s.gloss), lower);
    hide Code, EntriesFor, Join, DefinitionTexts, ExampleTexts;
  }

  lemma HeaderIsRead(s: Synset)
    requires WellFormed(s)
    ensures var fields := HeaderFields(s);
      && (forall f :: f in fields ==> Field(f)) && fields[0] == s.offset
      && |fields| >= 4 + 2 * |s.words| && ParseHex(fields[3]) == Some(|s.words|)
  {
    WordFieldsAreFields(s.words);
    CountIsRead(|s.words|);
    hide Field, ParseHex, Text.Fixed;
  }

  lemma LineIsNotBlank(offset: string, fields: seq<string>, gloss: string)
    requires fields != [] && fields[0] == offset && Word(offset)
    ensures var line := Join(fields, " ") + " | " + gloss;
      !StartsWith(line, "  ") && TrimSpace(line) != ""
  {
    var line := Join(fields, " ") + " | " + gloss;
    assert Join(fields, " ")[0] == offset[0];
    assert line[0] == offset[0];
    TrimIsTrimmed(line, c => Space(c));
  }

  lemma WordsAreRead(s: Synset)
    requires WellFormed(s)
    ensures |HeaderFields(s)| >= 4 + |s.words| * 2
    ensures WordsIn(HeaderFields(s), |s.words|) == seq(|s.words|, i requires 0 <= i < |s.words| => s.words[i].word)
  {
    WordFieldsAreFields(s.words);
    var (fields, n) := (HeaderFields(s), |s.words|);
    assert |fields| >= 4 + n * 2 && |WordFields(s.words)| == 2 * n;
    hide *;
    forall i | 0 <= i < n ensures Strip(fields[4 + i * 2]) == s.words[i].word {
      WordIsRead(s, i);
    }
    WordsAreStripped(fields, s.words);
  }

  lemma WordsAreStripped(fields: seq<string>, words: seq<Lemma>)
    requires |fields| >= 4 + |words| * 2 && forall i :: 0 <= i < |words| ==> Strip(fields[4 + i * 2]) == words[i].word
    ensures WordsIn(fields, |words|) == seq(|words|, i requires 0 <= i < |words| => words[i].word)
  {
    hide Strip;
  }

  lemma WordIsRead(s: Synset, i: nat)
    requires WellFormed(s) && i < |s.words| && |WordFields(s.words)| == 2 * |s.words|
    ensures |HeaderFields(s)| > 4 + i * 2 && Strip(HeaderFields(s)[4 + i * 2]) == s.words[i].word
  {
    hide *;
    WordIsPlain(s, i);
    WordFieldsAt(s.words, i);
    MarkersAreStripped(s.words[i]);
    WordFieldsFollow(s, 2 * i);
  }

  lemma WordIsPlain(s: Synset, i: nat)
    requires WellFormed(s) && i < |s.words|
    ensures PlainWord(s.words[i]) && |s.words| < 256
  {
    hide PlainWord, PlainClause, Field;
    assert s.words[i] in s.words;
  }

  lemma WordFieldsFollow(s: Synset, k: nat)
    requires |s.words| < 256 && k < |WordFields(s.words)|
    ensures |HeaderFields(s)| > 4 + k && HeaderFields(s)[4 + k] == WordFields(s.words)[k]
  {
    hide WordFields, Text.Fixed;
    var start := [s.offset, s.lexFile, s.kind, Text.Fixed(|s.words|, 16, 2)];
    assert HeaderFields(s) == start + WordFields(s.words) + s.pointers && |start| == 4;
  }
}
