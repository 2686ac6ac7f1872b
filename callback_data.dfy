/**
 * The callback data of inline buttons: "<action>_<id>" strings written
 * with f-strings and read back with data.split("_").
 */
module CallbackData {
  import opened Wrappers
  import opened Text

  predicate StartsWith(s: string, prefix: string) {
    |prefix| <= |s| && s[..|prefix|] == prefix
  }

  /** f"{prefix}_{id}" */
  function Encode(prefix: string, id: int): string {
    prefix + ['_'] + IntToString(id)
  }

  /** int(data.split("_")[1]); None where the index or int() raises. */
  function SecondField(data: string): Option<int> {
    var parts := Split(data, '_');
    if |parts| < 2 then None else ParseInt(parts[1])
  }

  /** int(data.split("_")[-1]); None where int() raises. */
  function LastField(data: string): Option<int> {
    var parts := Split(data, '_');
    ParseInt(parts[|parts| - 1])
  }

  /** data.split("_")[1] for data that starts with "game_": the text up to the next underscore. */
  function GameName(data: string): (game: string)
    requires StartsWith(data, "game_")
    ensures StartsWith(data[5..], game) && '_' !in game
    ensures |game| == |data| - 5 || data[5 + |game|] == '_'
  {
    assert data == "game" + "_" + data[5..];
    SplitAfterHead("game", data[5..], '_');
    var rest := Split(data[5..], '_');
    SplitJoins(data[5..], '_');
    // the first part of the rest is its separator-free head
    assert data[5..] == rest[0] || data[5..] == rest[0] + ['_'] + JoinParts(rest[1..], '_');
    rest[0]
  }

  /** The spelling of an integer has no underscore. */
  lemma IntSpellingHasNoUnderscore(i: int)
    ensures '_' !in IntToString(i)
  {
    if i < 0 {
      NoDigitIsSeparator(NatToString(-i), '_');
      assert IntToString(i) == "-" + NatToString(-i);
    } else {
      NoDigitIsSeparator(NatToString(i), '_');
    }
  }

  /** An id written after a single-word prefix reads back through split("_")[1]. */
  lemma SecondFieldRoundTrip(prefix: string, id: int)
    requires '_' !in prefix
    ensures SecondField(Encode(prefix, id)) == Some(id)
  {
    IntSpellingHasNoUnderscore(id);
    SplitAfterHead(prefix, IntToString(id), '_');
    SplitNoSeparator(IntToString(id), '_');
    ParseIntToString(id);
  }

  /** Splitting off a separator-free head keeps the last part. */
  lemma LastPartAfterHead(head: string, tail: string)
    requires '_' !in head
    ensures var parts := Split(head + ['_'] + tail, '_'); var rest := Split(tail, '_');
      parts[|parts| - 1] == rest[|rest| - 1]
  {
    SplitAfterHead(head, tail, '_');
    LastAfterCons(Split(tail, '_'), head, Split(head + ['_'] + tail, '_'));
  }

  lemma LastAfterCons(rest: seq<string>, head: string, parts: seq<string>)
    requires |rest| >= 1 && parts == [head] + rest
    ensures parts[|parts| - 1] == rest[|rest| - 1]
  {
  }

  /** An id written after any prefix reads back through split("_")[-1]. */
  lemma {:induction false} LastFieldRoundTrip(prefix: string, id: int)
    ensures LastField(Encode(prefix, id)) == Some(id)
    decreases |prefix|
  {
    LastPartIsId(prefix, id);
    ParseIntToString(id);
  }

  lemma {:induction false} LastPartIsId(prefix: string, id: int)
    ensures var parts := Split(Encode(prefix, id), '_'); parts[|parts| - 1] == IntToString(id)
    decreases |prefix|
  {
    var digits := IntToString(id);
    IntSpellingHasNoUnderscore(id);
    var k := Find(prefix, '_');
    if k == |prefix| {
      assert '_' !in prefix;
      LastPartAfterHead(prefix, digits);
      SplitNoSeparator(digits, '_');
    } else {
      var head := prefix[..k];
      var tail := prefix[k + 1..];
      assert prefix == head + ['_'] + tail;
      assert Encode(prefix, id) == head + ['_'] + Encode(tail, id);
      LastPartAfterHead(head, Encode(tail, id));
      LastPartIsId(tail, id);
    }
  }

  /** The two-word prefix "session_info" is why show_session_info reads the last field: the second one is "info". */
  lemma SessionInfoNeedsLastField(id: int)
    ensures SecondField(Encode("session_info", id)) == None
    ensures LastField(Encode("session_info", id)) == Some(id)
  {
    SessionInfoSecondField(id);
    LastFieldRoundTrip("session_info", id);
  }

  lemma SessionInfoSecondField(id: int)
    ensures SecondField(Encode("session_info", id)) == None
  {
    var session, info := "session", "info";
    var digits := IntToString(id);
    assert Encode("session_info", id) == session + ['_'] + info + ['_'] + digits;
    MiddleField(session, info, digits);
    assert !IsDigits(info) by { assert info[0] == 'i'; }
  }

  /** The second part of a + "_" + b + "_" + c is b when neither a nor b holds an underscore. */
  lemma MiddleField(a: string, b: string, c: string)
    requires '_' !in a && '_' !in b
    ensures var parts := Split(a + ['_'] + b + ['_'] + c, '_'); |parts| >= 2 && parts[1] == b
  {
    assert a + ['_'] + b + ['_'] + c == a + ['_'] + (b + ['_'] + c);
    SplitAfterHead(a, b + ['_'] + c, '_');
    SplitAfterHead(b, c, '_');
  }

  /** "game_other" asks for a name. */
  lemma GameNameOther()
    ensures GameName("game_other") == "other"
  {
    var other, none := "other", "";
    assert "game_other" == "game_" + other + none;
    GameNameIsHead(other, none);
  }

  /** A game name with an underscore is cut at it. */
  lemma GameNameCutAtUnderscore()
    ensures GameName("game_Dungeons_and_Dragons") == "Dungeons"
  {
    var dungeons, more := "Dungeons", "_and_Dragons";
    assert "game_Dungeons_and_Dragons" == "game_" + dungeons + more;
    GameNameIsHead(dungeons, more);
  }

  /** GameName is the separator-free head that follows "game_". */
  lemma GameNameIsHead(name: string, rest: string)
    requires '_' !in name
    requires |rest| == 0 || rest[0] == '_'
    ensures GameName("game_" + name + rest) == name
  {
    var data := "game_" + name + rest;
    assert data[5..] == name + rest;
    var game := GameName(data);
    if |game| < |name| {
      assert false;
    } else if |game| > |name| {
      PrefixCharAt(game, data[5..], |name|);
      assert false;
    }
  }

  lemma PrefixCharAt(prefix: string, s: string, i: nat)
    requires StartsWith(s, prefix) && i < |prefix|
    ensures prefix[i] == s[i]
  {
  }
}
