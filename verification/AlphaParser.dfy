/**
 The scanner of the alpha encoding, ParseToMap.

 Characters are bytes: SignedValue gives a byte its value as a signed char.
 */
module AlphaParser {
  import opened AlphaKeys
  import opened Texts

  datatype Token = Token(key: string, value: string)

  predicate IsDigit(c: char) {
    '0' <= c <= '9'
  }

  function SignedValue(c: char): int {
    (c as int + 128) % 256 - 128
  }

  predicate CharacterIsValid(buff: string, index: nat) {
    index < |buff| && SignedValue(buff[index]) < 255 && SignedValue(buff[index]) >= 0
  }

  // ----- what the scanner reads -----

  /** The number of key characters at the front of s. */
  function KeyRun(s: string): (n: nat)
    ensures n <= |s|
    ensures forall k :: 0 <= k < n ==> IsKeyCharacter(s[k])
    ensures n < |s| ==> !IsKeyCharacter(s[n])
  {
    if s == "" || !IsKeyCharacter(s[0]) then 0 else 1 + KeyRun(s[1..])
  }

  /** The number of digits at the front of s. */
  function DigitRun(s: string): (n: nat)
    ensures n <= |s|
    ensures forall k :: 0 <= k < n ==> IsDigit(s[k])
    ensures n < |s| ==> !IsDigit(s[n])
  {
    if s == "" || !IsDigit(s[0]) then 0 else 1 + DigitRun(s[1..])
  }

  /** The length of the key at the front of s: after a parenthesis, everything that looks like a key. */
  function KeyLength(s: string): (n: nat)
    requires s != "" && IsKeyCharacter(s[0])
    ensures 1 <= n <= |s|
  {
    if s[0] == '(' then KeyRun(s) else 1
  }

  /** The keys and values the scanner finds, known keys or not. */
  function Tokens(s: string): seq<Token> {
    if s == "" then []
    else if !IsKeyCharacter(s[0]) then Tokens(s[1..])
    else
      var k := KeyLength(s);
      var d := DigitRun(s[k..]);
      [Token(s[..k], s[k..k + d])] + Tokens(s[k + d..])
  }

  /** The map that storing the tokens one after the other leaves; unknown keys are dropped. */
  function Assign(ts: seq<Token>): map<AlphaKey, string> {
    if ts == [] then map[] else Store(ts[0]) + Assign(ts[1..])
  }

  function Store(t: Token): map<AlphaKey, string> {
    match InputKey(t.key)
    case Known(key) => map[key := t.value]
    case Unknown => map[]
  }

  function Parse(s: string): map<AlphaKey, string> {
    Assign(Tokens(s))
  }

  // ----- slices of concatenations -----

  lemma SliceOfConcat(a: string, x: string, i: nat, j: nat)
    requires i <= j <= |a|
    ensures (a + x)[i..j] == a[i..j]
    ensures (a + x)[j..] == a[j..] + x
  {}

  // ----- the scanner -----

  lemma ParseSkip(s: string)
    requires s != "" && !IsKeyCharacter(s[0])
    ensures Parse(s) == Parse(s[1..])
  {}

  lemma ParseToken(s: string, k: nat, d: nat)
    requires s != "" && IsKeyCharacter(s[0])
    requires k == KeyLength(s) && d == DigitRun(s[k..])
    ensures Parse(s) == Store(Token(s[..k], s[k..k + d])) + Parse(s[k + d..])
  {
    hide Store, KeyLength, DigitRun, IsKeyCharacter;
    var t, more := Token(s[..k], s[k..k + d]), Tokens(s[k + d..]);
    assert Tokens(s) == [t] + more;
    assert ([t] + more)[1..] == more;
  }

  method ParseToMap(buff: string) returns (result: map<AlphaKey, string>)
    ensures result == Parse(buff)
  {
    hide InputKey, Parse, KeyLength, KeyRun, DigitRun, IsKeyCharacter, IsDigit, SignedValue, Store;
    result := map[];
    var i := 0;
    while i < |buff|
      invariant i <= |buff|
      invariant Parse(buff) == result + Parse(buff[i..])
      decreases |buff| - i
    {
      ghost var start := i;
      ghost var (keyEnd, valueEnd) := TokenEnds(buff, start);
      var currentKey := "";
      if buff[i] == '(' {
        while CharacterIsValid(buff, i) && IsKeyCharacter(buff[i])
          invariant start <= i <= keyEnd
          invariant currentKey == buff[start..i]
          decreases |buff| - i
        {
          Extend(buff, start, i);
          WithinRun(buff, start, i);
          currentKey := currentKey + [buff[i]];
          i := i + 1;
        }
        WithinRun(buff, start, i);
      } else if IsKeyCharacter(buff[i]) {
        currentKey := [buff[i]];
        i := i + 1;
      } else {
        i := i + 1;
        ParseSkipAt(buff, start);
        continue;
      }
      assert i == keyEnd && currentKey == buff[start..keyEnd];

      var currentValue := "";
      while CharacterIsValid(buff, i) && IsDigit(buff[i])
        invariant keyEnd <= i <= valueEnd
        invariant currentValue == buff[keyEnd..i]
        decreases |buff| - i
      {
        Extend(buff, keyEnd, i);
        WithinDigits(buff, keyEnd, i);
        currentValue := currentValue + [buff[i]];
        i := i + 1;
      }
      WithinDigits(buff, keyEnd, i);

      ParseTokenAt(buff, start, keyEnd, valueEnd);
      ghost var earlier, token := result, Token(currentKey, currentValue);
      var lookup := InputKey(currentKey);
      if lookup.Known? {
        result := result[lookup.key := currentValue];
      }
      StoreToken(earlier, token);
      MapAssociative(earlier, Store(token), Parse(buff[i..]));
    }
    assert buff[i..] == "";
    EmptyParse();
  }

  /** Where the key and the value at position start end, when there is a key. */
  ghost function TokenEnds(buff: string, start: nat): (ends: (nat, nat))
    requires start < |buff|
    ensures start <= ends.0 <= ends.1 <= |buff|
    ensures IsKeyCharacter(buff[start]) ==>
      ends.0 == start + KeyLength(buff[start..]) && ends.1 == ends.0 + DigitRun(buff[ends.0..])
    ensures buff[start] == '(' ==> IsKeyCharacter(buff[start]) && ends.0 == start + KeyRun(buff[start..])
    ensures IsKeyCharacter(buff[start]) && buff[start] != '(' ==> ends.0 == start + 1
  {
    if IsKeyCharacter(buff[start]) then
      var k := start + KeyLength(buff[start..]);
      (k, k + DigitRun(buff[k..]))
    else (start, start)
  }

  lemma Extend(buff: string, start: nat, i: nat)
    requires start <= i < |buff|
    ensures buff[start..i] + [buff[i]] == buff[start..i + 1]
  {}

  lemma StoreToken(result: map<AlphaKey, string>, t: Token)
    ensures result + Store(t) == (var lookup := InputKey(t.key); if lookup.Known? then result[lookup.key := t.value] else result)
  {
    hide InputKey;
  }

  lemma ParseSkipAt(buff: string, start: nat)
    requires start < |buff| && !IsKeyCharacter(buff[start])
    ensures Parse(buff[start..]) == Parse(buff[start + 1..])
  {
    hide IsKeyCharacter;
    ParseSkip(buff[start..]);
    assert buff[start..][1..] == buff[start + 1..];
  }

  lemma WithinRun(buff: string, start: nat, i: nat)
    requires start <= |buff| && start <= i <= start + KeyRun(buff[start..]) <= |buff|
    ensures CharacterIsValid(buff, i) && IsKeyCharacter(buff[i]) <==> i < start + KeyRun(buff[start..])
  {
    assert i < |buff| ==> buff[i] == buff[start..][i - start];
  }

  lemma WithinDigits(buff: string, start: nat, i: nat)
    requires start <= |buff| && start <= i <= start + DigitRun(buff[start..]) <= |buff|
    ensures CharacterIsValid(buff, i) && IsDigit(buff[i]) <==> i < start + DigitRun(buff[start..])
  {
    assert i < |buff| ==> buff[i] == buff[start..][i - start];
  }

  lemma ParseTokenAt(buff: string, start: nat, keyEnd: nat, valueEnd: nat)
    requires start < |buff| && IsKeyCharacter(buff[start])
    requires keyEnd == start + KeyLength(buff[start..])
    requires valueEnd == keyEnd + DigitRun(buff[keyEnd..])
    ensures Parse(buff[start..]) == Store(Token(buff[start..keyEnd], buff[keyEnd..valueEnd])) + Parse(buff[valueEnd..])
  {
    hide Parse, Store, KeyLength, DigitRun;
    var s, k, d := buff[start..], keyEnd - start, valueEnd - keyEnd;
    assert s[k..] == buff[keyEnd..];
    ParseToken(s, k, d);
    assert s[..k] == buff[start..keyEnd];
    assert s[k..k + d] == buff[keyEnd..valueEnd];
    assert s[k + d..] == buff[valueEnd..];
  }

  lemma EmptyParse()
    ensures Parse("") == map[]
  {}

  // ----- last wins -----

  ghost predicate Stores(t: Token, key: AlphaKey) {
    InputKey(t.key) == Known(key)
  }

  /** A key is present exactly if some token has it, with the value of the last such token. */
  lemma StoreLookup(t: Token, key: AlphaKey)
    ensures key in Store(t) <==> Stores(t, key)
    ensures key in Store(t) ==> Store(t)[key] == t.value
  {
    hide InputKey;
  }

  /** A key is present exactly if some token has it. */
  lemma {:induction false} AssignedKeys(ts: seq<Token>, key: AlphaKey)
    ensures key in Assign(ts) <==> exists t <- ts :: Stores(t, key)
  {
    hide Store, Stores;
    if ts != [] {
      AssignedKeys(ts[1..], key);
      StoreLookup(ts[0], key);
      assert ts == [ts[0]] + ts[1..];
    }
  }

  /** Its value is that of the last token that has it. */
  lemma {:induction false} LastTokenWins(ts: seq<Token>, key: AlphaKey, i: nat)
    requires i < |ts| && Stores(ts[i], key)
    requires forall j :: i < j < |ts| ==> !Stores(ts[j], key)
    ensures key in Assign(ts) && Assign(ts)[key] == ts[i].value
  {
    hide Store, Stores;
    var more := ts[1..];
    forall j | i <= j < |more| ensures !Stores(more[j], key) {
      assert more[j] == ts[j + 1];
    }
    if i > 0 {
      LastTokenWins(more, key, i - 1);
    } else {
      StoreLookup(ts[0], key);
      AssignedKeys(more, key);
    }
  }

  lemma MapAssociative<K, V>(a: map<K, V>, b: map<K, V>, c: map<K, V>)
    ensures a + b + c == a + (b + c)
  {}

  lemma {:induction false} AssignConcat(ts: seq<Token>, us: seq<Token>)
    ensures Assign(ts + us) == Assign(ts) + Assign(us)
  {
    hide Store;
    if ts == [] {
      assert ts + us == us;
    } else {
      assert (ts + us)[1..] == ts[1..] + us;
      AssignConcat(ts[1..], us);
      MapAssociative(Store(ts[0]), Assign(ts[1..]), Assign(us));
    }
  }

  /** Every token has a non-empty key, so the junk entry of the table is never stored. */
  ghost predicate AllNamed(ts: seq<Token>) {
    forall t <- ts :: t.key != ""
  }

  lemma NamedFirst(t: Token, more: seq<Token>)
    requires t.key != "" && AllNamed(more)
    ensures AllNamed([t] + more)
  {}

  lemma KeyIsNotEmpty(s: string)
    requires s != "" && IsKeyCharacter(s[0])
    ensures s[..KeyLength(s)] != ""
  {}

  lemma {:induction false} TokensAreNamed(s: string)
    ensures AllNamed(Tokens(s))
  {
    hide Tokens, KeyLength, DigitRun, KeyRun, AllNamed;
    if s == "" {
      NoTokens();
      NothingIsNamed();
    } else if !IsKeyCharacter(s[0]) {
      SkipToken(s);
      TokensAreNamed(s[1..]);
    } else {
      var k, d := KeyLength(s), DigitRun(s[KeyLength(s)..]);
      UnfoldTokens(s);
      KeyIsNotEmpty(s);
      TokensAreNamed(s[k + d..]);
      NamedFirst(Token(s[..k], s[k..k + d]), Tokens(s[k + d..]));
    }
  }

  lemma NothingIsNamed()
    ensures AllNamed([])
  {}

  lemma JunkKeyNeverStored(s: string)
    ensures Max !in Parse(s)
  {
    TokensAreNamed(s);
    AssignedKeys(Tokens(s), Max);
    forall t <- Tokens(s) ensures !Stores(t, Max) {
      if InputKey(t.key).Known? {
        TableIsReadable(t.key);
      }
    }
  }

  // ----- printing and reading back -----

  function Render(ts: seq<Token>): string {
    if ts == [] then "" else ts[0].key + ts[0].value + Render(ts[1..])
  }

  ghost predicate Printable(t: Token) {
    Readable(t.key) && forall c <- t.value :: IsDigit(c)
  }

  /** A parenthesised key without a value: the scanner goes on into whatever key comes next. */
  predicate RunsOn(t: Token) {
    t.key != "" && t.key[0] == '(' && t.value == ""
  }

  /** No key runs into the one printed after it. */
  ghost predicate Separated(ts: seq<Token>) {
    forall i :: 0 <= i < |ts| - 1 ==> !RunsOn(ts[i])
  }

  lemma RunOfPrefix(p: string, s: string)
    requires forall c <- p :: IsKeyCharacter(c)
    ensures KeyRun(p + s) == |p| + KeyRun(s)
  {
    if p == "" {
      assert p + s == s;
    } else {
      assert (p + s)[1..] == p[1..] + s;
      RunOfPrefix(p[1..], s);
    }
  }

  lemma DigitsOfPrefix(p: string, s: string)
    requires forall c <- p :: IsDigit(c)
    ensures DigitRun(p + s) == |p| + DigitRun(s)
  {
    if p == "" {
      assert p + s == s;
    } else {
      assert (p + s)[1..] == p[1..] + s;
      DigitsOfPrefix(p[1..], s);
    }
  }

  lemma RenderStartsWithKey(ts: seq<Token>)
    requires forall t <- ts :: Printable(t)
    ensures ts != [] ==> Render(ts) != "" && IsKeyCharacter(Render(ts)[0])
    ensures ts == [] ==> Render(ts) == ""
    ensures DigitRun(Render(ts)) == 0
  {
    if ts != [] {
      assert ts[0] in ts;
      assert Render(ts)[0] == ts[0].key[0];
      assert ts[0].key[0] in ts[0].key;
    }
  }

  lemma FirstKeyLength(t: Token, rest: string)
    requires Printable(t) && (RunsOn(t) ==> rest == "")
    ensures t.key + (t.value + rest) != "" && IsKeyCharacter((t.key + (t.value + rest))[0])
    ensures KeyLength(t.key + (t.value + rest)) == |t.key|
  {
    var tail := t.value + rest;
    assert t.key[0] in t.key;
    RunOfPrefix(t.key, tail);
    if t.value == "" {
      assert tail == rest;
    } else {
      assert tail[0] == t.value[0] && t.value[0] in t.value;
    }
  }

  /** The first token read from a printed list, if it stands by itself. */
  lemma FirstToken(t: Token, rest: string)
    requires Printable(t) && DigitRun(rest) == 0
    requires RunsOn(t) ==> rest == ""
    ensures Tokens(t.key + t.value + rest) == [t] + Tokens(rest)
  {
    hide *;
    var s := t.key + (t.value + rest);
    var k, d := |t.key|, |t.value|;
    TokenSlices(t, rest);
    FirstKeyLength(t, rest);
    DigitsOfValue(t, rest);
    UnfoldTokens(s);
  }

  lemma TokenSlices(t: Token, rest: string)
    ensures var s := t.key + (t.value + rest);
      var k, d := |t.key|, |t.value|;
      && t.key + t.value + rest == s && s[..k] == t.key && s[k..k + d] == t.value
      && s[k..] == t.value + rest && s[k + d..] == rest
  {}

  lemma DigitsOfValue(t: Token, rest: string)
    requires Printable(t)
    ensures DigitRun(t.value + rest) == |t.value| + DigitRun(rest)
  {
    DigitsOfPrefix(t.value, rest);
  }

  lemma SeparatedTail(ts: seq<Token>)
    requires ts != []
    ensures Separated(ts) <==> (|ts| == 1 || !RunsOn(ts[0])) && Separated(ts[1..])
  {
    var more := ts[1..];
    forall i | 0 <= i < |more| ensures more[i] == ts[i + 1] {}
    if (|ts| == 1 || !RunsOn(ts[0])) && Separated(more) {
      forall i | 0 <= i < |ts| - 1 ensures !RunsOn(ts[i]) {
        if i > 0 {
          assert !RunsOn(more[i - 1]);
        }
      }
    }
    if Separated(ts) {
      forall i | 0 <= i < |more| - 1 ensures !RunsOn(more[i]) {
        assert !RunsOn(ts[i + 1]);
      }
    }
  }

  lemma ConsInjective<T>(x: T, s: seq<T>, ts: seq<T>)
    requires ts != [] && ts[0] == x
    ensures [x] + s == ts <==> s == ts[1..]
  {
    assert ([x] + s)[1..] == s;
    assert ts == [x] + ts[1..];
  }

  /** A printed list of readable keys and digit strings is read back as printed exactly if it is separated. */
  lemma {:induction false} ReadBackIffSeparated(ts: seq<Token>)
    requires forall t <- ts :: Printable(t)
    ensures Tokens(Render(ts)) == ts <==> Separated(ts)
  {
    if ts != [] {
      hide Printable, RunsOn, Separated, Tokens, Store;
      var t, more := ts[0], ts[1..];
      var rest := Render(more);
      assert Printable(t);
      SeparatedTail(ts);
      RenderStartsWithKey(more);
      ReadBackIffSeparated(more);
      if RunsOn(t) && more != [] {
        SwallowedKey(t, rest);
      } else {
        FirstToken(t, rest);
        ConsInjective(t, Tokens(rest), ts);
      }
    }
  }

  predicate AllKeyCharacters(s: string) {
    forall c <- s :: IsKeyCharacter(c)
  }

  /** After a parenthesis the key goes on into whatever key characters come next. */
  lemma ParenthesisedKeyLength(p: string, s: string)
    requires AllKeyCharacters(p) && p != "" && p[0] == '('
    ensures p + s != "" && IsKeyCharacter((p + s)[0]) && KeyLength(p + s) == |p| + KeyRun(s)
  {
    assert (p + s)[0] == p[0] == '(';
    RunOfPrefix(p, s);
    hide KeyRun;
  }

  lemma RunsOnIntoKeys(t: Token, rest: string)
    requires Printable(t) && RunsOn(t)
    ensures AllKeyCharacters(t.key) && t.key != "" && t.key[0] == '(' && t.key + t.value + rest == t.key + rest
  {
    hide IsKeyCharacter;
  }

  lemma RunStarts(s: string)
    requires s != "" && IsKeyCharacter(s[0])
    ensures KeyRun(s) > 0
  {
    hide IsKeyCharacter;
  }

  lemma SwallowedKey(t: Token, rest: string)
    requires Printable(t) && RunsOn(t)
    requires rest != "" && IsKeyCharacter(rest[0])
    ensures Tokens(t.key + t.value + rest) != [] && |Tokens(t.key + t.value + rest)[0].key| > |t.key|
  {
    hide *;
    RunsOnIntoKeys(t, rest);
    ParenthesisedKeyLength(t.key, rest);
    RunStarts(rest);
    UnfoldTokens(t.key + rest);
  }

  lemma UnfoldTokens(s: string)
    requires s != "" && IsKeyCharacter(s[0])
    ensures var k, d := KeyLength(s), DigitRun(s[KeyLength(s)..]);
      Tokens(s) == [Token(s[..k], s[k..k + d])] + Tokens(s[k + d..])
  {
    hide DigitRun, KeyLength, IsKeyCharacter;
  }

  /** So a separated list of known keys parses to its last-wins map. */
  lemma ParseOfRender(ts: seq<Token>)
    requires forall t <- ts :: Printable(t) && InputKey(t.key).Known?
    requires Separated(ts)
    ensures Parse(Render(ts)) == Assign(ts)
  {
    ReadBackIffSeparated(ts);
  }

  // ----- separators -----

  predicate IsSeparator(c: char) {
    !IsKeyCharacter(c) && !IsDigit(c)
  }

  lemma RunStopsAt(a: string, c: char, b: string)
    ensures !IsKeyCharacter(c) ==> KeyRun(a + [c] + b) == KeyRun(a)
    ensures !IsDigit(c) ==> DigitRun(a + [c] + b) == DigitRun(a)
  {
    if a != "" {
      assert (a + [c] + b)[1..] == a[1..] + [c] + b;
      RunStopsAt(a[1..], c, b);
    }
  }

  lemma {:induction false} TokensAcrossSeparator(a: string, c: char, b: string)
    requires IsSeparator(c)
    ensures Tokens(a + [c] + b) == Tokens(a) + Tokens(b)
    decreases |a|
  {
    hide *;
    var s := a + [c] + b;
    NoTokens();
    if a == "" {
      NoKeyInFront(c, b);
      assert s == [c] + b && s[1..] == b;
      SkipToken(s);
    } else if !IsKeyCharacter(a[0]) {
      assert s[0] == a[0] && s[1..] == a[1..] + [c] + b;
      SkipToken(a);
      SkipToken(s);
      TokensAcrossSeparator(a[1..], c, b);
    } else {
      var k, d := KeyLength(a), DigitRun(a[KeyLength(a)..]);
      FrontAcrossSeparator(a, c, b, k, d);
      TokensAcrossSeparator(a[k + d..], c, b);
      UnfoldTokens(a);
      UnfoldTokensAt(s, k, d);
      Regroup([Token(a[..k], a[k..k + d])], Tokens(a[k + d..]), Tokens(b));
    }
  }

  lemma NoKeyInFront(c: char, b: string)
    requires IsSeparator(c)
    ensures !IsKeyCharacter(([c] + b)[0])
  {}

  lemma UnfoldTokensAt(s: string, k: nat, d: nat)
    requires s != "" && IsKeyCharacter(s[0]) && k == KeyLength(s) && d == DigitRun(s[k..])
    ensures Tokens(s) == [Token(s[..k], s[k..k + d])] + Tokens(s[k + d..])
  {
    hide *;
    UnfoldTokens(s);
  }

  lemma NoTokens()
    ensures Tokens("") == []
  {}

  lemma SkipToken(s: string)
    requires s != "" && !IsKeyCharacter(s[0])
    ensures Tokens(s) == Tokens(s[1..])
  {}

  lemma KeyLengthAcross(a: string, c: char, b: string)
    requires IsSeparator(c) && a != "" && IsKeyCharacter(a[0])
    ensures a + [c] + b != "" && IsKeyCharacter((a + [c] + b)[0]) && KeyLength(a + [c] + b) == KeyLength(a)
  {
    assert (a + [c] + b)[0] == a[0];
    RunStopsAt(a, c, b);
    hide IsKeyCharacter, IsDigit, KeyRun, DigitRun;
  }

  lemma SlicesAcross(a: string, x: string, b: string, k: nat, d: nat)
    requires k + d <= |a|
    ensures var s := a + x + b;
      && s[..k] == a[..k] && s[k..k + d] == a[k..k + d] && s[k..] == a[k..] + x + b && s[k + d..] == a[k + d..] + x + b
  {
    Regroup(a, x, b);
    SliceOfConcat(a, x + b, 0, k);
    SliceOfConcat(a, x + b, k, k + d);
    Regroup(a[k..], x, b);
    Regroup(a[k + d..], x, b);
  }

  lemma DigitsStopAt(a: string, c: char, b: string)
    requires IsSeparator(c)
    ensures DigitRun(a + [c] + b) == DigitRun(a)
  {
    RunStopsAt(a, c, b);
    hide KeyRun, DigitRun;
  }

  lemma FrontAcrossSeparator(a: string, c: char, b: string, k: nat, d: nat)
    requires IsSeparator(c) && a != "" && IsKeyCharacter(a[0])
    requires k == KeyLength(a) && d == DigitRun(a[k..])
    ensures var s := a + [c] + b;
      && s != "" && IsKeyCharacter(s[0]) && KeyLength(s) == k && DigitRun(s[k..]) == d
      && s[..k] == a[..k] && s[k..k + d] == a[k..k + d]
      && s[k + d..] == a[k + d..] + [c] + b
  {
    hide *;
    KeyLengthAcross(a, c, b);
    SlicesAcross(a, [c], b, k, d);
    DigitsStopAt(a[k..], c, b);
  }

  /** Text on both sides of a separator is parsed on its own; what comes later wins. */
  lemma ParseAcrossSeparator(a: string, c: char, b: string)
    requires IsSeparator(c)
    ensures Parse(a + [c] + b) == Parse(a) + Parse(b)
  {
    TokensAcrossSeparator(a, c, b);
    AssignConcat(Tokens(a), Tokens(b));
  }

  lemma ParseAcrossNewline(a: string, b: string)
    ensures Parse(a + "\n" + b) == Parse(a) + Parse(b)
    ensures Parse(a + "\n") == Parse(a)
  {
    ParseAcrossSeparator(a, '\n', b);
    ParseAcrossSeparator(a, '\n', "");
    assert a + "\n" == a + ['\n'] + "";
  }
}
