/** Rewriting the deployment's environment file with the Sign in with Apple settings. */
module EnvFile {
  import opened Common
  import opened Strings
  import Text

  datatype Error = InvalidIdentifier | InvalidPrivateKey | DuplicateKey | InvalidExistingKey

  datatype Result<T> = Ok(value: T) | Err(error: Error)

  /** `keyAccepted` is whether the PEM, PKCS8 and P-256 checks pass, `encodedKey` the standard
      base64 text of the private key file. */
  datatype Inputs = Inputs(clientId: string, teamId: string, keyId: string, keyAccepted: bool, encodedKey: string)

  /** The managed names, in the order they are written. */
  datatype Name = Client | Team | KeyId | PrivateKey | EncryptionKey

  const NAMES := [Client, Team, KeyId, PrivateKey, EncryptionKey]

  function NameText(name: Name): string {
    match name
    case Client => "LEARNING_APPLE_CLIENT_ID"
    case Team => "LEARNING_APPLE_TEAM_ID"
    case KeyId => "LEARNING_APPLE_KEY_ID"
    case PrivateKey => "LEARNING_APPLE_PRIVATE_KEY_BASE64"
    case EncryptionKey => "LEARNING_APPLE_TOKEN_ENCRYPTION_KEY"
  }

  function NameOf(text: string): Option<Name> {
    if text == NameText(Client) then Some(Client)
    else if text == NameText(Team) then Some(Team)
    else if text == NameText(KeyId) then Some(KeyId)
    else if text == NameText(PrivateKey) then Some(PrivateKey)
    else if text == NameText(EncryptionKey) then Some(EncryptionKey)
    else None
  }

  // ---------- validity ----------

  predicate AlphaNumeric(c: char) { 'A' <= c <= 'Z' || 'a' <= c <= 'z' || '0' <= c <= '9' }

  predicate ClientIdentifier(s: string) {
    s != "" && AlphaNumeric(s[0]) && forall i :: 0 <= i < |s| ==> AlphaNumeric(s[i]) || s[i] == '.' || s[i] == '-'
  }

  predicate TenCharacters(s: string) {
    |s| == 10 && forall i :: 0 <= i < |s| ==> 'A' <= s[i] <= 'Z' || '0' <= s[i] <= '9'
  }

  predicate ValidIdentifiers(i: Inputs) {
    ClientIdentifier(i.clientId) && TenCharacters(i.teamId) && TenCharacters(i.keyId)
  }

  predicate Base64Char(c: char) { AlphaNumeric(c) || c == '+' || c == '/' }

  predicate Base64Text(s: string) { forall i :: 0 <= i < |s| ==> Base64Char(s[i]) || s[i] == '=' }

  /** Decodes to 32 bytes: 43 digits and one padding character, section 4 of RFC 4648. The
      decoder skips line ends. */
  predicate ValidKey(s: string) {
    var t := Text.WithoutNewlines(s);
    |t| == 44 && t[43] == '=' && forall i :: 0 <= i < 43 ==> Base64Char(t[i])
  }

  // ---------- what a run means ----------

  /** The managed name a line assigns, and the text behind its first '='. */
  function Assigns(line: string): Option<(Name, string)> {
    match Cut(line, "=")
    case None => None
    case Some((name, value)) =>
      match NameOf(TrimSpace(TrimPrefix(TrimSpace(name), "export ")))
      case None => None
      case Some(managed) => Some((managed, value))
  }

  function Unmanaged(lines: seq<string>): seq<string> {
    if lines == [] then []
    else
      var n := |lines| - 1;
      Unmanaged(lines[..n]) + if Assigns(lines[n]).Some? then [] else [lines[n]]
  }

  /** The texts assigned to a name, in order. */
  function Assigned(lines: seq<string>, name: Name): seq<string> {
    if lines == [] then []
    else
      var (n, a) := (|lines| - 1, Assigns(lines[|lines| - 1]));
      Assigned(lines[..n], name) + if a.Some? && a.value.0 == name then [a.value.1] else []
  }

  function NonBlank(texts: seq<string>): seq<string> {
    if texts == [] then []
    else
      var (n, text) := (|texts| - 1, TrimSpace(texts[|texts| - 1]));
      NonBlank(texts[..n]) + if text != "" then [text] else []
  }

  /** The encryption keys a file already holds. */
  function Keys(lines: seq<string>): seq<string> { NonBlank(Assigned(lines, EncryptionKey)) }

  function Unquoted(s: string): string { Trim(s, c => c == '"' || c == '\'') }

  /** The first existing key decides, a second one is an error, a new one is for none. */
  function ChosenKey(lines: seq<string>, generated: string): Result<string> {
    var keys := Keys(lines);
    if keys == [] then Ok(generated)
    else if !ValidKey(Unquoted(keys[0])) then Err(InvalidExistingKey)
    else if |keys| > 1 then Err(DuplicateKey)
    else Ok(Unquoted(keys[0]))
  }

  function ValueOf(i: Inputs, key: string, name: Name): string {
    match name
    case Client => i.clientId
    case Team => i.teamId
    case KeyId => i.keyId
    case PrivateKey => i.encodedKey
    case EncryptionKey => key
  }

  function Assignment(name: Name, value: string): string { NameText(name) + "=" + value }

  function AssignmentsOf(names: seq<Name>, i: Inputs, key: string): (lines: seq<string>)
    ensures |lines| == |names|
  {
    if names == [] then []
    else
      var n := |names| - 1;
      AssignmentsOf(names[..n], i, key) + [Assignment(names[n], ValueOf(i, key, names[n]))]
  }

  function Assignments(i: Inputs, key: string): seq<string> { AssignmentsOf(NAMES, i, key) }

  function Lines(text: string): seq<string> { Split(TrimSuffix(text, "\n"), "\n") }

  function Render(lines: seq<string>): string { Join(lines, "\n") + "\n" }

  function Configured(previous: string, i: Inputs, generated: string): Result<string> {
    if !ValidIdentifiers(i) then Err(InvalidIdentifier)
    else if !i.keyAccepted then Err(InvalidPrivateKey)
    else match ChosenKey(Lines(previous), generated)
      case Err(e) => Err(e)
      case Ok(key) => Ok(Render(Unmanaged(Lines(previous)) + Assignments(i, key)))
  }

  // ---------- the command ----------

  /** The pass over the existing lines: unmanaged ones are kept, the first key is taken. */
  method ReadLines(lines: seq<string>, values: map<Name, string>)
    returns (error: Option<Error>, kept: seq<string>, updated: map<Name, string>)
    requires EncryptionKey in values && values[EncryptionKey] == ""
    ensures error.None? ==> kept == Unmanaged(lines)
    ensures error.Some? ==> ChosenKey(lines, "") == Err(error.value)
    ensures error.None? ==> exists key :: ChosenKey(lines, "") == Ok(key) && updated == values[EncryptionKey := key]
  {
    hide ValidKey, Assigns, TrimSpace, Unquoted, ChosenKey;
    error, kept, updated := None, [], values;
    ghost var keys: seq<string> := [];
    assert Keys(lines[..0]) == keys;
    hide Keys;
    for n := 0 to |lines|
      invariant kept == Unmanaged(lines[..n])
      invariant keys == Keys(lines[..n]) && |keys| <= 1
      invariant keys == [] ==> updated == values
      invariant keys != [] ==> ValidKey(Unquoted(keys[0])) && updated == values[EncryptionKey := Unquoted(keys[0])]
    {
      KeysStep(lines, n);
      keys := keys + KeyIn(lines[n]);
      match Assigns(lines[n]) {
        case None =>
          kept := kept + [lines[n]];
        case Some((name, value)) =>
          var text := TrimSpace(value);
          if name == EncryptionKey && text != "" {
            ValidKeysAreNotEmpty();
            if updated[EncryptionKey] != "" {
              SecondKeyIsRefused(lines, n + 1);
              return Some(DuplicateKey), kept, updated;
            }
            var key := Unquoted(text);
            if !ValidKey(key) {
              InvalidKeyIsRefused(lines, n + 1);
              return Some(InvalidExistingKey), kept, updated;
            }
            updated := updated[EncryptionKey := key];
          }
      }
    }
    assert lines[..|lines|] == lines;
    KeyIsChosen(lines);
  }

  lemma SecondKeyIsRefused(lines: seq<string>, n: nat)
    requires n <= |lines| && |Keys(lines[..n])| > 1 && ValidKey(Unquoted(Keys(lines[..n])[0]))
    ensures ChosenKey(lines, "") == Err(DuplicateKey)
  {
    KeysOnlyGrow(lines, n);
    hide Keys, ValidKey, Unquoted;
    assert Keys(lines)[0] == Keys(lines[..n])[0];
  }

  lemma InvalidKeyIsRefused(lines: seq<string>, n: nat)
    requires n <= |lines| && |Keys(lines[..n])| > 0 && !ValidKey(Unquoted(Keys(lines[..n])[0]))
    ensures ChosenKey(lines, "") == Err(InvalidExistingKey)
  {
    KeysOnlyGrow(lines, n);
    hide Keys, ValidKey, Unquoted;
    assert Keys(lines)[0] == Keys(lines[..n])[0];
  }

  lemma KeyIsChosen(lines: seq<string>)
    requires |Keys(lines)| <= 1 && (Keys(lines) != [] ==> ValidKey(Unquoted(Keys(lines)[0])))
    ensures ChosenKey(lines, "") == Ok(if Keys(lines) == [] then "" else Unquoted(Keys(lines)[0]))
  {
    hide Keys, ValidKey, Unquoted;
  }

  lemma ValidKeysAreNotEmpty()
    ensures !ValidKey("")
  {
  }

  lemma OneMoreName(names: seq<Name>, name: Name, i: Inputs, key: string)
    ensures AssignmentsOf(names + [name], i, key)
            == AssignmentsOf(names, i, key) + [NameText(name) + "=" + ValueOf(i, key, name)]
  {
    assert (names + [name])[..|names|] == names;
  }

  lemma WrittenLines(i: Inputs, key: string)
    ensures Assignments(i, key) ==
            ["LEARNING_APPLE_CLIENT_ID" + "=" + i.clientId, "LEARNING_APPLE_TEAM_ID" + "=" + i.teamId,
             "LEARNING_APPLE_KEY_ID" + "=" + i.keyId, "LEARNING_APPLE_PRIVATE_KEY_BASE64" + "=" + i.encodedKey,
             "LEARNING_APPLE_TOKEN_ENCRYPTION_KEY" + "=" + key]
  {
    OneMoreName([], Client, i, key);
    OneMoreName([Client], Team, i, key);
    OneMoreName([Client, Team], KeyId, i, key);
    OneMoreName([Client, Team, KeyId], PrivateKey, i, key);
    OneMoreName([Client, Team, KeyId, PrivateKey], EncryptionKey, i, key);
    assert NAMES == [Client, Team, KeyId, PrivateKey] + [EncryptionKey];
    assert [Client, Team, KeyId, PrivateKey] == [Client, Team, KeyId] + [PrivateKey];
    assert [Client, Team, KeyId] == [Client, Team] + [KeyId] && [Client, Team] == [Client] + [Team];
    assert [Client] == [] + [Client];
  }

  method Configure(previous: string, i: Inputs, generated: string) returns (result: Result<string>)
    ensures result == Configured(previous, i, generated)
    ensures result.Ok? ==> exists key ::
              && ChosenKey(Lines(previous), generated) == Ok(key)
              && result.value == Render(Unmanaged(Lines(previous)) +
                   ["LEARNING_APPLE_CLIENT_ID" + "=" + i.clientId, "LEARNING_APPLE_TEAM_ID" + "=" + i.teamId,
                    "LEARNING_APPLE_KEY_ID" + "=" + i.keyId, "LEARNING_APPLE_PRIVATE_KEY_BASE64" + "=" + i.encodedKey,
                    "LEARNING_APPLE_TOKEN_ENCRYPTION_KEY" + "=" + key])
  {
    hide ValidIdentifiers, ChosenKey, Unmanaged, Lines, Render, Assignment;
    if !ValidIdentifiers(i) {
      return Err(InvalidIdentifier);
    }
    if !i.keyAccepted {
      return Err(InvalidPrivateKey);
    }
    var values := map[Client := i.clientId, Team := i.teamId, KeyId := i.keyId, PrivateKey := i.encodedKey,
        EncryptionKey := ""];
    var error, kept, updated := ReadLines(Lines(previous), values);
    ChosenKeyOrGenerated(Lines(previous), generated);
    if error.Some? {
      return Err(error.value);
    }
    if updated[EncryptionKey] == "" {
      updated := updated[EncryptionKey := generated];
    }
    ghost var key := updated[EncryptionKey];
    assert forall name: Name :: name in updated && updated[name] == ValueOf(i, key, name) by {
      forall name: Name ensures name in updated && updated[name] == ValueOf(i, key, name) {
        match name { case Client => case Team => case KeyId => case PrivateKey => case EncryptionKey => }
      }
    }
    hide ValueOf;
    for n := 0 to |NAMES|
      invariant kept == Unmanaged(Lines(previous)) + AssignmentsOf(NAMES[..n], i, key)
    {
      assert NAMES[..n + 1][..n] == NAMES[..n];
      kept := kept + [Assignment(NAMES[n], updated[NAMES[n]])];
    }
    assert NAMES[..|NAMES|] == NAMES && ChosenKey(Lines(previous), generated) == Ok(key);
    WrittenLines(i, key);
    result := Ok(Render(kept));
  }

  lemma ChosenKeyOrGenerated(lines: seq<string>, generated: string)
    ensures ChosenKey(lines, generated) ==
            if ChosenKey(lines, "") == Ok("") then Ok(generated) else ChosenKey(lines, "")
  {
    ValidKeysAreNotEmpty();
    hide ValidKey, Unquoted, Keys;
  }

  /** The key a line adds. */
  function KeyIn(line: string): seq<string> {
    match Assigns(line)
    case None => []
    case Some((name, value)) => if name == EncryptionKey && TrimSpace(value) != "" then [TrimSpace(value)] else []
  }

  lemma KeysStep(lines: seq<string>, n: nat)
    requires n < |lines|
    ensures Keys(lines[..n + 1]) == Keys(lines[..n]) + KeyIn(lines[n])
    ensures Unmanaged(lines[..n + 1]) == Unmanaged(lines[..n]) + if Assigns(lines[n]).Some? then [] else [lines[n]]
  {
    assert lines[..n + 1][..n] == lines[..n];
    hide Assigns, TrimSpace;
    var (a, texts) := (Assigns(lines[n]), Assigned(lines[..n], EncryptionKey));
    if a.Some? && a.value.0 == EncryptionKey {
      assert Assigned(lines[..n + 1], EncryptionKey) == texts + [a.value.1];
      assert (texts + [a.value.1])[..|texts|] == texts;
    } else {
      assert Assigned(lines[..n + 1], EncryptionKey) == texts;
    }
  }

  lemma {:induction false} KeysOnlyGrow(lines: seq<string>, n: nat)
    requires n <= |lines|
    ensures |Keys(lines[..n])| <= |Keys(lines)| && Keys(lines)[..|Keys(lines[..n])|] == Keys(lines[..n])
    decreases |lines| - n
  {
    hide Keys, KeyIn, Unmanaged, Assigns;
    if n == |lines| {
      assert lines[..n] == lines;
    } else {
      KeysStep(lines, n);
      KeysOnlyGrow(lines, n + 1);
    }
  }

  // ---------- what a run leaves behind ----------

  predicate NameChar(c: char) { 'A' <= c <= 'Z' || '0' <= c <= '9' || c == '_' }

  lemma NamesAreWords(name: Name)
    ensures |NameText(name)| > 0 && forall i :: 0 <= i < |NameText(name)| ==> NameChar(NameText(name)[i])
  {
    match name { case Client => case Team => case KeyId => case PrivateKey => case EncryptionKey => }
  }

  lemma NamesAreFound(name: Name)
    ensures NameOf(NameText(name)) == Some(name)
  {
    assert |NameText(Client)| == 24 && |NameText(Team)| == 22 && |NameText(KeyId)| == 21
      && |NameText(PrivateKey)| == 33 && |NameText(EncryptionKey)| == 35;
    hide NameText;
  }

  lemma NamesAreClean(name: Name)
    ensures NameOf(NameText(name)) == Some(name) && '=' !in NameText(name) && '\n' !in NameText(name)
    ensures TrimSpace(NameText(name)) == NameText(name) && TrimPrefix(NameText(name), "export ") == NameText(name)
  {
    NamesAreFound(name);
    NamesAreWords(name);
    TrimNothing(NameText(name), c => Space(c));
    hide NameText, NameOf;
    var text := NameText(name);
    assert NameChar(text[0]) && NameChar(text[|text| - 1]);
    assert "export "[0] == 'e' && !NameChar('e');
  }

  /** A line written for a name is read back as that name's. */
  lemma AssignmentIsRead(name: Name, value: string)
    ensures Assigns(Assignment(name, value)) == Some((name, value))
  {
    NamesAreClean(name);
    FreeOfChar(NameText(name), '=');
    CutAtFirst(NameText(name), "=", value);
    hide NameText, NameOf, TrimSpace, TrimPrefix;
  }

  /** What one more line adds to the lines kept, and to the texts of a name. */
  function KeptOf(line: string): seq<string> { if Assigns(line).Some? then [] else [line] }

  function TextOf(line: string, name: Name): seq<string> {
    var a := Assigns(line);
    if a.Some? && a.value.0 == name then [a.value.1] else []
  }

  lemma FilterGrows(lines: seq<string>, line: string, name: Name)
    ensures Unmanaged(lines + [line]) == Unmanaged(lines) + KeptOf(line)
    ensures Assigned(lines + [line], name) == Assigned(lines, name) + TextOf(line, name)
  {
    hide Assigns;
    assert (lines + [line])[..|lines|] == lines;
  }

  lemma Associate(a: seq<string>, b: seq<string>, c: seq<string>)
    ensures (a + b) + c == a + (b + c)
  {
  }

  lemma {:induction false} FiltersAppend(a: seq<string>, b: seq<string>, name: Name)
    ensures Unmanaged(a + b) == Unmanaged(a) + Unmanaged(b)
    ensures Assigned(a + b, name) == Assigned(a, name) + Assigned(b, name)
    decreases |b|
  {
    hide Assigns;
    if b == [] {
      assert a + b == a;
    } else {
      var (init, line) := (b[..|b| - 1], b[|b| - 1]);
      hide *;
      assert b == init + [line];
      assert a + b == (a + init) + [line];
      FiltersAppend(a, init, name);
      FilterGrows(a + init, line, name);
      FilterGrows(init, line, name);
      Associate(Unmanaged(a), Unmanaged(init), KeptOf(line));
      Associate(Assigned(a, name), Assigned(init, name), TextOf(line, name));
    }
  }

  lemma OneLine(line: string, name: Name)
    ensures Unmanaged([line]) == KeptOf(line) && Assigned([line], name) == TextOf(line, name)
  {
    FilterGrows([], line, name);
    assert [] + [line] == [line];
  }

  lemma {:induction false} UnmanagedIsUnmanaged(lines: seq<string>, name: Name)
    ensures Unmanaged(Unmanaged(lines)) == Unmanaged(lines) && Assigned(Unmanaged(lines), name) == []
    ensures forall l :: l in Unmanaged(lines) ==> l in lines
  {
    if lines != [] {
      var (init, last) := (lines[..|lines| - 1], lines[|lines| - 1]);
      UnmanagedIsUnmanaged(init, name);
      hide Assigns;
      if Assigns(last).Some? {
        assert Unmanaged(lines) == Unmanaged(init);
      } else {
        assert Unmanaged(lines) == Unmanaged(init) + [last];
        FiltersAppend(Unmanaged(init), [last], name);
        OneLine(last, name);
      }
    }
  }

  lemma {:induction false} AssignmentsAreRead(names: seq<Name>, i: Inputs, key: string, name: Name)
    requires forall j, k :: 0 <= j < k < |names| ==> names[j] != names[k]
    ensures Unmanaged(AssignmentsOf(names, i, key)) == []
    ensures Assigned(AssignmentsOf(names, i, key), name) == if name in names then [ValueOf(i, key, name)] else []
  {
    hide Assigns, Assignment, ValueOf;
    if names != [] {
      var (init, last) := (names[..|names| - 1], names[|names| - 1]);
      var line := Assignment(last, ValueOf(i, key, last));
      AssignmentsAreRead(init, i, key, name);
      AssignmentIsRead(last, ValueOf(i, key, last));
      OneLine(line, name);
      FiltersAppend(AssignmentsOf(init, i, key), [line], name);
      hide Unmanaged, Assigned;
      assert name in names <==> name in init || name == last;
    }
  }

  lemma {:induction false} AssignmentsAreOneLine(names: seq<Name>, i: Inputs, key: string)
    requires ValidIdentifiers(i) && Base64Text(i.encodedKey) && '\n' !in key
    ensures forall l :: l in AssignmentsOf(names, i, key) ==> '\n' !in l
  {
    if names != [] {
      var last := names[|names| - 1];
      AssignmentsAreOneLine(names[..|names| - 1], i, key);
      NamesAreClean(last);
      ValueIsOneLine(i, key, last);
      hide NameText, ValueOf, ValidIdentifiers, Base64Text;
    }
  }

  lemma ValueIsOneLine(i: Inputs, key: string, name: Name)
    requires ValidIdentifiers(i) && Base64Text(i.encodedKey) && '\n' !in key
    ensures '\n' !in ValueOf(i, key, name)
  {
  }

  lemma LinesOfRender(lines: seq<string>)
    requires lines != [] && forall l :: l in lines ==> '\n' !in l
    ensures Lines(Render(lines)) == lines
  {
    assert TrimSuffix(Render(lines), "\n") == Join(lines, "\n");
    forall l | l in lines ensures Free(l, "\n") { FreeOfChar(l, '\n'); }
    SplitUndoesJoin(lines, "\n");
  }

  /** A base64 encoder's output, as the command generates keys. */
  predicate Generated(key: string) { ValidKey(key) && Base64Text(key) }

  /** The managed names are each assigned once, and every other line is still there, in its
      place among the others. */
  lemma RewriteKeepsTheRest(previous: string, i: Inputs, generated: string)
    requires Base64Text(i.encodedKey) && Generated(generated) && Configured(previous, i, generated).Ok?
    ensures var (before, now) := (Lines(previous), Lines(Configured(previous, i, generated).value));
      && ChosenKey(before, generated).Ok?
      && now == Unmanaged(before) + Assignments(i, ChosenKey(before, generated).value)
      && Unmanaged(now) == Unmanaged(before)
      && forall name :: Assigned(now, name) == [ValueOf(i, ChosenKey(before, generated).value, name)]
  {
    var before := Lines(previous);
    var key := ChosenKey(before, generated).value;
    var now := Unmanaged(before) + Assignments(i, key);
    UnmanagedIsUnmanaged(before, Client);
    LinesAreFree(TrimSuffix(previous, "\n"), '\n');
    ChosenKeyIsOneLine(previous, generated);
    AssignmentsAreOneLine(NAMES, i, key);
    hide ChosenKey, Unmanaged, Assigned, Generated, ValidKey, AssignmentsOf, ValueOf;
    LinesOfRender(now);
    hide Lines, Render;
    forall name: Name ensures Unmanaged(now) == Unmanaged(before) && Assigned(now, name) == [ValueOf(i, key, name)] {
      ManagedOnce(before, i, key, name);
    }
  }

  lemma EveryNameIsWritten(name: Name)
    ensures name in NAMES && forall j, k :: 0 <= j < k < |NAMES| ==> NAMES[j] != NAMES[k]
  {
    match name { case Client => case Team => case KeyId => case PrivateKey => case EncryptionKey => }
    assert name == NAMES[Position(name)];
  }

  function Position(name: Name): nat {
    match name case Client => 0 case Team => 1 case KeyId => 2 case PrivateKey => 3 case EncryptionKey => 4
  }

  lemma ManagedOnce(before: seq<string>, i: Inputs, key: string, name: Name)
    ensures var now := Unmanaged(before) + Assignments(i, key);
      Unmanaged(now) == Unmanaged(before) && Assigned(now, name) == [ValueOf(i, key, name)]
  {
    var (kept, added) := (Unmanaged(before), Assignments(i, key));
    assert added == AssignmentsOf(NAMES, i, key);
    hide *;
    EveryNameIsWritten(name);
    UnmanagedIsUnmanaged(before, name);
    AssignmentsAreRead(NAMES, i, key, name);
    FiltersAppend(kept, added, name);
    assert kept + [] == kept && [] + Assigned(added, name) == Assigned(added, name);
  }

  lemma TrimKeepsCharacters(s: string, cut: char -> bool)
    ensures forall c :: c in Trim(s, cut) ==> c in s
  {
    TrimIsTrimmed(s, cut);
  }

  lemma ChosenKeyIsOneLine(previous: string, generated: string)
    requires Generated(generated)
    ensures var key := ChosenKey(Lines(previous), generated); key.Ok? ==> '\n' !in key.value && ValidKey(key.value)
  {
    LinesAreFree(TrimSuffix(previous, "\n"), '\n');
    KeysAreInLines(Lines(previous));
    var keys := Keys(Lines(previous));
    if keys != [] {
      TrimKeepsCharacters(keys[0], c => c == '"' || c == '\'');
      assert '\n' !in keys[0];
    }
  }

  lemma {:induction false} KeysAreInLines(lines: seq<string>)
    requires forall l :: l in lines ==> '\n' !in l
    ensures forall key :: key in Keys(lines) ==> '\n' !in key && key == TrimSpace(key) && key != ""
  {
    if lines != [] {
      var n := |lines| - 1;
      KeysAreInLines(lines[..n]);
      KeysStep(lines, n);
      assert lines[..n + 1] == lines && lines[n] in lines;
      var a := Assigns(lines[n]);
      if a.Some? {
        CutKeepsCharacters(lines[n], "=");
        TrimKeepsCharacters(a.value.1, c => Space(c));
        TrimIsTrimmed(a.value.1, c => Space(c));
        TrimNothing(TrimSpace(a.value.1), c => Space(c));
      }
    }
  }

  lemma {:induction false} CutKeepsCharacters(s: string, sep: string)
    requires sep != ""
    ensures Cut(s, sep).Some? ==> forall c :: c in Cut(s, sep).value.1 ==> c in s
  {
    if s != "" && !StartsWith(s, sep) {
      CutKeepsCharacters(s[1..], sep);
    }
  }

  // ---------- running it again ----------

  /** A carriage return the decoder skips but trimming removes. */
  predicate EdgeReturn(s: string) { s != "" && (s[0] == '\r' || s[|s| - 1] == '\r') }

  /** An existing valid key survives, up to surrounding space and quotes. */
  lemma ExistingKeyIsKept(previous: string, i: Inputs, generated: string)
    requires ValidIdentifiers(i) && i.keyAccepted
    requires |Keys(Lines(previous))| == 1
    ensures Configured(previous, i, generated).Ok? <==> ValidKey(Unquoted(Keys(Lines(previous))[0]))
    ensures Configured(previous, i, generated).Ok? ==>
        ChosenKey(Lines(previous), generated) == Ok(Unquoted(Keys(Lines(previous))[0]))
  {
  }

  predicate LineEnd(c: char) { c == '\r' || c == '\n' }

  lemma {:induction false} NewlinesAppends(a: string, b: string)
    ensures Text.WithoutNewlines(a + b) == Text.WithoutNewlines(a) + Text.WithoutNewlines(b)
    decreases a
  {
    if a == "" {
      assert a + b == b;
    } else {
      assert (a + b)[1..] == a[1..] + b;
      NewlinesAppends(a[1..], b);
    }
  }

  lemma {:induction false} NewlinesCharacters(a: string)
    ensures (forall c :: c in a ==> LineEnd(c)) ==> Text.WithoutNewlines(a) == ""
    ensures forall c :: c in a ==> LineEnd(c) || c in Text.WithoutNewlines(a)
  {
    if a != "" {
      NewlinesCharacters(a[1..]);
      assert a == [a[0]] + a[1..];
      assert a[0] in a && forall c :: c in a[1..] ==> c in a;
    }
  }

  lemma TrimmingLineEnds(v: string)
    requires forall c :: c in v && Space(c) ==> LineEnd(c)
    ensures Text.WithoutNewlines(TrimSpace(v)) == Text.WithoutNewlines(v) && forall c :: c in TrimSpace(v) ==> c in v
  {
    var i, j := TrimSpaceSlice(v);
    hide Space, TrimSpace;
    forall c | c in v[..i] || c in v[j..] ensures LineEnd(c) { assert c in v && Space(c); }
    assert v == v[..i] + v[i..j] + v[j..];
    NewlinesMiddle(v[..i], v[i..j], v[j..]);
  }

  lemma NewlinesMiddle(a: string, m: string, b: string)
    requires (forall c :: c in a ==> LineEnd(c)) && (forall c :: c in b ==> LineEnd(c))
    ensures Text.WithoutNewlines(a + m + b) == Text.WithoutNewlines(m)
  {
    NewlinesAppends(a + m, b);
    NewlinesAppends(a, m);
    NewlinesCharacters(a);
    NewlinesCharacters(b);
  }

  /** Trimming a valid key takes line ends only, so the key it decodes to stays. */
  lemma TrimmedKeyIsValid(v: string)
    requires ValidKey(v) && '\n' !in v
    ensures var t := TrimSpace(v);
      && t != "" && ValidKey(t) && '\n' !in t && Text.WithoutNewlines(t) == Text.WithoutNewlines(v) && Unquoted(t) == t
      && (t == v <==> !EdgeReturn(v)) && !EdgeReturn(t)
  {
    KeyCharacters(v);
    TrimmingLineEnds(v);
    TrimIsTrimmed(v, c => Space(c));
    TrimNothing(v, c => Space(c));
    TrimNothing(TrimSpace(v), c => c == '"' || c == '\'');
    hide Text.WithoutNewlines, TrimSpace, Trim;
    var t := TrimSpace(v);
    assert ValidKey(t);
    KeyCharacters(t);
    assert t[0] in t && t[|t| - 1] in t && v[0] in v && v[|v| - 1] in v;
  }

  lemma KeyCharacters(v: string)
    requires ValidKey(v)
    ensures v != "" && forall c :: c in v ==> c != '"' && c != '\'' && (Space(c) <==> LineEnd(c))
  {
    NewlinesCharacters(v);
    assert forall c :: c in Text.WithoutNewlines(v) ==> Base64Char(c) || c == '=';
  }

  /** A second run with the same settings, whatever it would have generated, returns the same
      bytes unless the kept key starts or ends with a carriage return. */
  lemma RerunIsIdentical(previous: string, i: Inputs, generated: string, again: string)
    requires Base64Text(i.encodedKey) && Generated(generated) && Generated(again)
        && Configured(previous, i, generated).Ok?
    ensures ChosenKey(Lines(previous), generated).Ok?
    ensures var (first, key) := (Configured(previous, i, generated).value, ChosenKey(Lines(previous), generated).value);
      && Configured(first, i, again).Ok? && ChosenKey(Lines(first), again) == Ok(TrimSpace(key))
      && (Configured(first, i, again) == Ok(first) <==> !EdgeReturn(key))
  {
    hide Unmanaged, AssignmentsOf, Lines, Render, TrimSpace, EdgeReturn, Assigned, ValidIdentifiers, Generated,
        ChosenKey;
    KeyIsReadBack(previous, i, generated, again);
    RewriteKeepsTheRest(previous, i, generated);
    var (first, key) := (Configured(previous, i, generated).value, ChosenKey(Lines(previous), generated).value);
    assert Assigned(Lines(first), EncryptionKey) == [ValueOf(i, key, EncryptionKey)] == [key];
    assert Configured(first, i, again) == Ok(Render(Unmanaged(Lines(first)) + Assignments(i, TrimSpace(key))));
    RewriteKeepsTheRest(first, i, again);
    var second := Configured(first, i, again).value;
    assert Assigned(Lines(second), EncryptionKey) == [ValueOf(i, TrimSpace(key), EncryptionKey)] == [TrimSpace(key)];
  }

  /** The next run finds the key this one wrote. */
  lemma KeyIsReadBack(previous: string, i: Inputs, generated: string, again: string)
    requires Base64Text(i.encodedKey) && Generated(generated) && Configured(previous, i, generated).Ok?
    ensures ChosenKey(Lines(previous), generated).Ok?
    ensures var (first, key) := (Configured(previous, i, generated).value, ChosenKey(Lines(previous), generated).value);
      ChosenKey(Lines(first), again) == Ok(TrimSpace(key)) && (TrimSpace(key) == key <==> !EdgeReturn(key))
  {
    hide ValidKey, Unmanaged, AssignmentsOf, Lines, Render, TrimSpace, EdgeReturn, Assigned, Unquoted, ValidIdentifiers;
    RewriteKeepsTheRest(previous, i, generated);
    var (first, key) := (Configured(previous, i, generated).value, ChosenKey(Lines(previous), generated).value);
    ChosenKeyIsOneLine(previous, generated);
    TrimmedKeyIsValid(key);
    assert Assigned(Lines(first), EncryptionKey) == [ValueOf(i, key, EncryptionKey)] == [key];
    OneKey(Lines(first), key);
    hide Keys;
  }

  lemma OneKey(lines: seq<string>, key: string)
    requires Assigned(lines, EncryptionKey) == [key] && TrimSpace(key) != ""
    ensures Keys(lines) == [TrimSpace(key)]
  {
    assert [key][..0] == [] && NonBlank([]) == [];
    assert NonBlank([key]) == [] + [TrimSpace(key)];
  }

  /** Such a file: its key is quoted with a carriage return before the closing quote. */
  lemma QuotedReturnIsRewritten(i: Inputs, key: string, generated: string, again: string)
    requires ValidIdentifiers(i) && i.keyAccepted && Base64Text(i.encodedKey)
    requires Generated(key) && Generated(generated) && Generated(again)
    ensures var previous := Render([Assignment(EncryptionKey, "\"" + key + "\r\"")]);
      && ChosenKey(Lines(previous), generated) == Ok(key + "\r") && Configured(previous, i, generated).Ok?
      && Configured(Configured(previous, i, generated).value, i, again) != Configured(previous, i, generated)
  {
    hide Assigned, Assigns, ValidIdentifiers, ValidKey, Unquoted, Lines, Render, TrimSpace, Assignment;
    QuotedReturnIsChosen(key, generated);
    RerunIsIdentical(Render([Assignment(EncryptionKey, "\"" + key + "\r\"")]), i, generated, again);
  }

  lemma QuotedReturnIsChosen(key: string, generated: string)
    requires Generated(key)
    ensures ChosenKey(Lines(Render([Assignment(EncryptionKey, "\"" + key + "\r\"")])), generated) == Ok(key + "\r")
  {
    var quoted := "\"" + key + "\r\"";
    var line := Assignment(EncryptionKey, quoted);
    QuotedReturn(key);
    NamesAreClean(EncryptionKey);
    AssignmentIsRead(EncryptionKey, quoted);
    OneLine(line, EncryptionKey);
    hide NameText, Assigns, Assigned, ValidKey, Unquoted, TrimSpace;
    LinesOfRender([line]);
    hide Lines, Render, Assignment;
    OneKey([line], quoted);
  }

  lemma QuotedReturn(key: string)
    requires Generated(key)
    ensures var quoted := "\"" + key + "\r\"";
      TrimSpace(quoted) == quoted && quoted != "" && '\n' !in quoted && Unquoted(quoted) == key + "\r"
          && ValidKey(key + "\r")
  {
    GeneratedIsPlain(key);
    ReturnIsSkipped(key);
    hide Generated, ValidKey;
    TrimNothing("\"" + key + "\r\"", c => Space(c));
    QuotesComeOff(key);
  }

  lemma ReturnIsSkipped(key: string)
    requires ValidKey(key)
    ensures ValidKey(key + "\r")
  {
    NewlinesMiddle("", key, "\r");
    assert "" + key + "\r" == key + "\r";
    hide Text.WithoutNewlines;
  }

  lemma QuotesComeOff(key: string)
    requires key != "" && key[0] != '"' && key[0] != '\''
    ensures Unquoted("\"" + key + "\r\"") == key + "\r"
  {
    var (inner, quoted) := (key + "\r", "\"" + key + "\r\"");
    var quote := c => c == '"' || c == '\'';
    assert quoted[1..][..|quoted| - 2] == inner;
    assert TrimLeft(quoted, quote) == quoted[1..];
    assert TrimRight(quoted[1..], quote) == inner;
  }

  lemma GeneratedIsPlain(key: string)
    requires Generated(key)
    ensures key != "" && forall c :: c in key ==> c != '"' && c != '\'' && c != '\n' && !Space(c)
  {
  }

  /** From the second run on nothing changes any more. */
  lemma ThirdRunIsIdentical(previous: string, i: Inputs, generated: string, again: string, more: string)
    requires Base64Text(i.encodedKey) && Generated(generated) && Generated(again) && Generated(more)
    requires Configured(previous, i, generated).Ok?
    ensures var first := Configured(previous, i, generated).value;
      && Configured(first, i, again).Ok?
      && Configured(Configured(first, i, again).value, i, more) == Configured(first, i, again)
  {
    RerunIsIdentical(previous, i, generated, again);
    var first := Configured(previous, i, generated).value;
    ChosenKeyIsOneLine(previous, generated);
    TrimmedKeyIsValid(ChosenKey(Lines(previous), generated).value);
    RerunIsIdentical(first, i, again, more);
  }
}
