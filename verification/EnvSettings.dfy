/** What the rewritten environment file says, in its own words: which value stands under
    which name, and where the encryption key comes from. */
module EnvSettings {
  import opened Common
  import opened Strings
  import opened EnvFile

  /** A line that gives a name a value, with or without `export` and spaces. */
  predicate Sets(line: string, name: string) {
    var cut := Cut(line, "=");
    cut.Some? && TrimSpace(TrimPrefix(TrimSpace(cut.value.0), "export ")) == name
  }

  /** The text a line gives, trimmed. */
  function Given(line: string): string {
    var cut := Cut(line, "=");
    if cut.Some? then TrimSpace(cut.value.1) else ""
  }

  /** One line sets the name, and it says `name=value`. */
  ghost predicate SetOnce(lines: seq<string>, name: string, value: string) {
    exists k :: 0 <= k < |lines| && lines[k] == name + "=" + value && Sets(lines[k], name)
      && forall j :: 0 <= j < |lines| && Sets(lines[j], name) ==> j == k
  }

  lemma SetsIsAssigns(line: string, name: Name)
    ensures Sets(line, NameText(name)) <==> Assigns(line).Some? && Assigns(line).value.0 == name
    ensures Assigns(line).Some? ==> TrimSpace(Assigns(line).value.1) == Given(line)
  {
    NamesAreFound(name);
    hide NameText, TrimSpace, TrimPrefix, Cut;
    var cut := Cut(line, "=");
    if cut.Some? { OnlyItsText(TrimSpace(TrimPrefix(TrimSpace(cut.value.0), "export ")), name); }
  }

  lemma OnlyItsText(text: string, name: Name)
    ensures NameOf(text) == Some(name) <==> text == NameText(name)
  {
    NamesAreFound(name);
  }

  /** The lines kept are those that set none of the five names. */
  lemma {:induction false} KeptIff(lines: seq<string>, line: string)
    ensures line in Unmanaged(lines) <==>
            && line in lines
            && !Sets(line, "LEARNING_APPLE_CLIENT_ID") && !Sets(line, "LEARNING_APPLE_TEAM_ID")
            && !Sets(line, "LEARNING_APPLE_KEY_ID") && !Sets(line, "LEARNING_APPLE_PRIVATE_KEY_BASE64")
            && !Sets(line, "LEARNING_APPLE_TOKEN_ENCRYPTION_KEY")
  {
    if lines != [] {
      var n := |lines| - 1;
      KeptIff(lines[..n], line);
      assert lines == lines[..n] + [lines[n]];
      ManagedIff(line);
      hide Sets, Assigns;
    }
  }

  lemma ManagedIff(line: string)
    ensures Assigns(line).Some? <==>
            || Sets(line, "LEARNING_APPLE_CLIENT_ID") || Sets(line, "LEARNING_APPLE_TEAM_ID")
            || Sets(line, "LEARNING_APPLE_KEY_ID") || Sets(line, "LEARNING_APPLE_PRIVATE_KEY_BASE64")
            || Sets(line, "LEARNING_APPLE_TOKEN_ENCRYPTION_KEY")
  {
    SetsIsAssigns(line, Client);
    SetsIsAssigns(line, Team);
    SetsIsAssigns(line, KeyId);
    SetsIsAssigns(line, PrivateKey);
    SetsIsAssigns(line, EncryptionKey);
    hide Sets, Assigns;
    if Assigns(line).Some? {
      match Assigns(line).value.0 { case Client => case Team => case KeyId => case PrivateKey => case EncryptionKey => }
    }
  }

  /** Of the lines written, those that set a name are the one at its place. */
  lemma NewLineSets(name: Name, value: string, other: Name)
    ensures Sets(NameText(name) + "=" + value, NameText(other)) <==> name == other
  {
    AssignmentIsRead(name, value);
    SetsIsAssigns(NameText(name) + "=" + value, other);
    assert Assignment(name, value) == NameText(name) + "=" + value;
    hide Sets, Assigns, NameText;
  }

  lemma WrittenOnce(kept: seq<string>, added: seq<string>, place: nat, name: string, value: string)
    requires place < |added| && added[place] == name + "=" + value
    requires forall l :: l in kept ==> !Sets(l, name)
    requires forall j :: 0 <= j < |added| ==> (Sets(added[j], name) <==> j == place)
    ensures SetOnce(kept + added, name, value)
  {
    hide Sets;
    var (lines, k) := (kept + added, |kept| + place);
    assert lines[k] == name + "=" + value && Sets(lines[k], name);
    assert forall j :: 0 <= j < |kept| ==> lines[j] == kept[j] && kept[j] in kept;
    assert forall j :: |kept| <= j < |lines| ==> lines[j] == added[j - |kept|];
  }

  lemma PlaceOf(i: Inputs, key: string, name: Name)
    ensures |Assignments(i, key)| == 5
    ensures Assignments(i, key)[Position(name)] == NameText(name) + "=" + ValueOf(i, key, name)
    ensures forall j :: 0 <= j < 5 ==> (Sets(Assignments(i, key)[j], NameText(name)) <==> j == Position(name))
  {
    WrittenLines(i, key);
    NewLineSets(Client, i.clientId, name);
    NewLineSets(Team, i.teamId, name);
    NewLineSets(KeyId, i.keyId, name);
    NewLineSets(PrivateKey, i.encodedKey, name);
    NewLineSets(EncryptionKey, key, name);
    hide Sets, Assignments;
  }

  lemma NameIsWritten(before: seq<string>, i: Inputs, key: string, name: Name)
    ensures SetOnce(Unmanaged(before) + Assignments(i, key), NameText(name), ValueOf(i, key, name))
  {
    PlaceOf(i, key, name);
    forall l | l in Unmanaged(before) ensures !Sets(l, NameText(name)) {
      KeptIff(before, l);
      hide Unmanaged, Sets;
      match name { case Client => case Team => case KeyId => case PrivateKey => case EncryptionKey => }
    }
    hide *;
    assert Position(name) < 5 by { PositionIsSmall(name); }
    WrittenOnce(Unmanaged(before), Assignments(i, key), Position(name), NameText(name), ValueOf(i, key, name));
  }

  lemma PositionIsSmall(name: Name)
    ensures Position(name) < 5
  {
  }

  // ---------- the encryption key ----------

  /** The keys a file holds are the texts, not blank, that its lines give the name. */
  lemma {:induction false} KeysAreGiven(lines: seq<string>, text: string)
    ensures text in Keys(lines) <==>
            text != "" && exists l :: l in lines && Sets(l, "LEARNING_APPLE_TOKEN_ENCRYPTION_KEY") && Given(l) == text
    decreases |lines|
  {
    if lines != [] {
      var n := |lines| - 1;
      var (init, last) := (lines[..n], lines[n]);
      KeysStep(lines, n);
      assert lines[..n + 1] == lines && lines == init + [last];
      hide Keys;
      KeysAreGiven(init, text);
      KeyOfLine(last, text);
      hide Sets, Given, KeyIn;
      assert forall l :: l in lines <==> l in init || l == last;
    } else {
      assert Keys(lines) == [];
    }
  }

  lemma KeyOfLine(line: string, text: string)
    ensures text in KeyIn(line) <==>
            text != "" && Sets(line, "LEARNING_APPLE_TOKEN_ENCRYPTION_KEY") && Given(line) == text
  {
    SetsIsAssigns(line, EncryptionKey);
    hide Sets, Assigns, Given;
  }

  /** The key written is the one the file gave, unquoted, and the generated one if it gave
      none. */
  lemma KeyIsGiven(lines: seq<string>, generated: string, line: string)
    requires ChosenKey(lines, generated).Ok?
    requires line in lines && Sets(line, "LEARNING_APPLE_TOKEN_ENCRYPTION_KEY") && Given(line) != ""
    ensures ChosenKey(lines, generated) == Ok(Unquoted(Given(line)))
  {
    KeysAreGiven(lines, Given(line));
    hide Keys, Sets, Given, ValidKey, Unquoted;
  }

  lemma KeyIsGenerated(lines: seq<string>, generated: string)
    requires forall l :: l in lines && Sets(l, "LEARNING_APPLE_TOKEN_ENCRYPTION_KEY") ==> Given(l) == ""
    ensures ChosenKey(lines, generated) == Ok(generated)
  {
    var keys := Keys(lines);
    if keys != [] { KeysAreGiven(lines, keys[0]); }
    hide Keys, Sets, Given, ValidKey, Unquoted;
  }

  /** The key written is the one the file gave, unquoted, and the generated one if it gave
      none. */
  ghost predicate KeyComesFrom(before: seq<string>, generated: string, key: string) {
    && (forall l :: l in before && Sets(l, "LEARNING_APPLE_TOKEN_ENCRYPTION_KEY") && Given(l) != "" ==>
          key == Unquoted(Given(l)))
    && ((forall l :: l in before && Sets(l, "LEARNING_APPLE_TOKEN_ENCRYPTION_KEY") ==> Given(l) == "") ==>
          key == generated)
  }

  lemma ChosenKeyComesFrom(before: seq<string>, generated: string)
    requires ChosenKey(before, generated).Ok?
    ensures KeyComesFrom(before, generated, ChosenKey(before, generated).value)
  {
    var key := ChosenKey(before, generated).value;
    forall l | l in before && Sets(l, "LEARNING_APPLE_TOKEN_ENCRYPTION_KEY") && Given(l) != ""
      ensures key == Unquoted(Given(l))
    {
      KeyIsGiven(before, generated, l);
    }
    if forall l :: l in before && Sets(l, "LEARNING_APPLE_TOKEN_ENCRYPTION_KEY") ==> Given(l) == "" {
      KeyIsGenerated(before, generated);
    }
    hide ChosenKey, Sets, Given, Unquoted;
  }

  lemma FiveNames(before: seq<string>, i: Inputs, key: string)
    ensures var now := Unmanaged(before) + Assignments(i, key);
      && SetOnce(now, "LEARNING_APPLE_CLIENT_ID", i.clientId)
      && SetOnce(now, "LEARNING_APPLE_TEAM_ID", i.teamId)
      && SetOnce(now, "LEARNING_APPLE_KEY_ID", i.keyId)
      && SetOnce(now, "LEARNING_APPLE_PRIVATE_KEY_BASE64", i.encodedKey)
      && SetOnce(now, "LEARNING_APPLE_TOKEN_ENCRYPTION_KEY", key)
  {
    hide Unmanaged, Assignments, SetOnce;
    NameIsWritten(before, i, key, Client);
    NameIsWritten(before, i, key, Team);
    NameIsWritten(before, i, key, KeyId);
    NameIsWritten(before, i, key, PrivateKey);
    NameIsWritten(before, i, key, EncryptionKey);
  }

  // ---------- the file ----------

  /** After an accepted run the file gives each of the five names exactly once, with the
      value that belongs to it: the identifiers and the private key as they were entered, and
      for the encryption key what the file gave before, unquoted, or the generated key if it
      gave none. */
  lemma SettingsAreWritten(previous: string, i: Inputs, generated: string) returns (key: string)
    requires Base64Text(i.encodedKey) && Generated(generated) && Configured(previous, i, generated).Ok?
    ensures var (before, now) := (Lines(previous), Lines(Configured(previous, i, generated).value));
      && SetOnce(now, "LEARNING_APPLE_CLIENT_ID", i.clientId)
      && SetOnce(now, "LEARNING_APPLE_TEAM_ID", i.teamId)
      && SetOnce(now, "LEARNING_APPLE_KEY_ID", i.keyId)
      && SetOnce(now, "LEARNING_APPLE_PRIVATE_KEY_BASE64", i.encodedKey)
      && SetOnce(now, "LEARNING_APPLE_TOKEN_ENCRYPTION_KEY", key)
      && KeyComesFrom(before, generated, key)
  {
    hide *;
    RewriteKeepsTheRest(previous, i, generated);
    key := ChosenKey(Lines(previous), generated).value;
    ChosenKeyComesFrom(Lines(previous), generated);
    FiveNames(Lines(previous), i, key);
  }
}
