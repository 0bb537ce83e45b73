/** `ParamPackage`: a string map with an escaped one-line form. */
module ParamPackage {
  import opened StringUtil

  const KEY_VALUE_SEPARATOR := ':'
  const PARAM_SEPARATOR := ','
  const ESCAPE_CHARACTER := '$'
  const KEY_VALUE_SEPARATOR_ESCAPE := "$0"
  const PARAM_SEPARATOR_ESCAPE := "$1"
  const ESCAPE_CHARACTER_ESCAPE := "$2"
  const EMPTY_PLACEHOLDER := "[empty]"

  /** The three passes of `Serialize` over a key or value. */
  function Escape(part: string): string {
    var a := Replace(part, [ESCAPE_CHARACTER], ESCAPE_CHARACTER_ESCAPE);
    var b := Replace(a, [PARAM_SEPARATOR], PARAM_SEPARATOR_ESCAPE);
    Replace(b, [KEY_VALUE_SEPARATOR], KEY_VALUE_SEPARATOR_ESCAPE)
  }

  /** The three passes of the parsing constructor. */
  function Unescape(part: string): string {
    var a := Replace(part, KEY_VALUE_SEPARATOR_ESCAPE, [KEY_VALUE_SEPARATOR]);
    var b := Replace(a, PARAM_SEPARATOR_ESCAPE, [PARAM_SEPARATOR]);
    Replace(b, ESCAPE_CHARACTER_ESCAPE, [ESCAPE_CHARACTER])
  }

  /** The pieces of `Serialize`, in the iteration order `keys`. */
  function Pairs(data: map<string, string>, keys: seq<string>): seq<string>
    requires forall k :: k in keys ==> k in data
  {
    seq(|keys|, i requires 0 <= i < |keys| => Escape(keys[i]) + [KEY_VALUE_SEPARATOR] + Escape(data[keys[i]]))
  }

  /** `keys` lists the keys of `data`, each once; the source iterates in the order of `std::map`. */
  ghost predicate Enumerates(keys: seq<string>, data: map<string, string>) {
    (forall k :: k in keys <==> k in data) && forall i, j :: 0 <= i < j < |keys| ==> keys[i] != keys[j]
  }

  function Serialized(data: map<string, string>, keys: seq<string>): string
    requires forall k :: k in keys ==> k in data
  {
    if keys == [] then EMPTY_PLACEHOLDER else Join(Pairs(data, keys), PARAM_SEPARATOR)
  }

  /** One piece: a key and a value make an entry, anything else is skipped. */
  function AddPair(data: map<string, string>, pair: string): map<string, string> {
    var kv := Split(pair, KEY_VALUE_SEPARATOR);
    if |kv| != 2 then data else data[Unescape(kv[0]) := Unescape(kv[1])]
  }

  function AddPairs(pairs: seq<string>): map<string, string> {
    if pairs == [] then map[] else AddPair(AddPairs(pairs[..|pairs| - 1]), pairs[|pairs| - 1])
  }

  function Parsed(serialized: string): map<string, string> {
    if serialized == EMPTY_PLACEHOLDER then map[] else AddPairs(Split(serialized, PARAM_SEPARATOR))
  }

  // ---------------------------------------------------------------- escaping is inverted

  /** One character after the first `level` escaping passes. */
  function Token(c: char, level: nat): string {
    if c == ESCAPE_CHARACTER && level >= 1 then ESCAPE_CHARACTER_ESCAPE
    else if c == PARAM_SEPARATOR && level >= 2 then PARAM_SEPARATOR_ESCAPE
    else if c == KEY_VALUE_SEPARATOR && level >= 3 then KEY_VALUE_SEPARATOR_ESCAPE
    else [c]
  }

  function Encoded(s: string, level: nat): string {
    if s == "" then "" else Token(s[0], level) + Encoded(s[1..], level)
  }

  /** The character a level introduces the escape of. */
  function Special(level: nat): char
    requires 1 <= level <= 3
  {
    if level == 1 then ESCAPE_CHARACTER else if level == 2 then PARAM_SEPARATOR else KEY_VALUE_SEPARATOR
  }

  lemma EncodedAtZero(s: string)
    ensures Encoded(s, 0) == s
  {
  }

  lemma MatchHead(s: string, src: string)
    requires src != ""
    ensures MatchesAt(s, src, 0) ==> s[0] == src[0] && (|src| > 1 ==> s[1] == src[1])
  {
    if MatchesAt(s, src, 0) {
      assert s[0..|src|][0] == s[0];
      assert |src| > 1 ==> s[0..|src|][1] == s[1];
    }
  }

  /** A string that does not begin with a match loses its first character. */
  lemma ReplaceMiss(c: char, rest: string, src: string, dest: string)
    requires src != "" && (c != src[0] || (|src| > 1 && (rest == "" || rest[0] != src[1])))
    ensures Replace([c] + rest, src, dest) == [c] + Replace(rest, src, dest)
  {
    var s := [c] + rest;
    MatchHead(s, src);
    assert s[1..] == rest;
  }

  lemma ReplaceHit(rest: string, src: string, dest: string)
    requires src != ""
    ensures Replace(src + rest, src, dest) == dest + Replace(rest, src, dest)
  {
    var s := src + rest;
    assert s[0..|src|] == src && s[|src|..] == rest;
  }

  /** An escape sequence that is not the one looked for stays. */
  lemma ReplaceMissTwo(c: char, d: char, rest: string, src: string, dest: string)
    requires src != "" && (c != src[0] || (|src| > 1 && d != src[1])) && d != src[0]
    ensures Replace([c, d] + rest, src, dest) == [c, d] + Replace(rest, src, dest)
  {
    ReplaceMiss(d, rest, src, dest);
    ReplaceMiss(c, [d] + rest, src, dest);
    assert [c, d] + rest == [c] + ([d] + rest);
    assert [c, d] + Replace(rest, src, dest) == [c] + ([d] + Replace(rest, src, dest));
  }

  /** The escape of the special character of a level. */
  function EscapeOf(level: nat): string
    requires 1 <= level <= 3
  {
    Token(Special(level), 3)
  }

  lemma TokenEscapes(c: char, level: nat, rest: string)
    requires level < 3
    ensures Replace(Token(c, level) + rest, [Special(level + 1)], EscapeOf(level + 1)) ==
            Token(c, level + 1) + Replace(rest, [Special(level + 1)], EscapeOf(level + 1))
  {
    var src, dest, token := [Special(level + 1)], EscapeOf(level + 1), Token(c, level);
    if c == Special(level + 1) {
      ReplaceHit(rest, src, dest);
    } else if |token| == 2 {
      assert token == [token[0], token[1]];
      ReplaceMissTwo(token[0], token[1], rest, src, dest);
    } else {
      ReplaceMiss(c, rest, src, dest);
    }
  }

  lemma TokenUnescapes(c: char, level: nat, rest: string)
    requires level < 3
    ensures Replace(Token(c, level + 1) + rest, EscapeOf(level + 1), [Special(level + 1)]) ==
            Token(c, level) + Replace(rest, EscapeOf(level + 1), [Special(level + 1)])
  {
    var src, dest, token := EscapeOf(level + 1), [Special(level + 1)], Token(c, level + 1);
    if c == Special(level + 1) {
      ReplaceHit(rest, src, dest);
    } else if |token| == 2 {
      assert token == [token[0], token[1]];
      ReplaceMissTwo(token[0], token[1], rest, src, dest);
    } else {
      ReplaceMiss(c, rest, src, dest);
    }
  }

  /** Each escaping pass raises the level by one. */
  lemma {:induction false} EscapePass(s: string, level: nat)
    requires level < 3
    ensures Replace(Encoded(s, level), [Special(level + 1)], EscapeOf(level + 1)) == Encoded(s, level + 1)
  {
    if s != "" {
      EscapePass(s[1..], level);
      TokenEscapes(s[0], level, Encoded(s[1..], level));
    }
  }

  /** Each unescaping pass lowers it again. */
  lemma {:induction false} UnescapePass(s: string, level: nat)
    requires level < 3
    ensures Replace(Encoded(s, level + 1), EscapeOf(level + 1), [Special(level + 1)]) == Encoded(s, level)
  {
    if s != "" {
      UnescapePass(s[1..], level);
      TokenUnescapes(s[0], level, Encoded(s[1..], level + 1));
    }
  }

  lemma EscapeIsEncoded(s: string)
    ensures Escape(s) == Encoded(s, 3)
  {
    EncodedAtZero(s);
    EscapePass(s, 0);
    EscapePass(s, 1);
    EscapePass(s, 2);
  }

  /** The three unescaping passes invert the three escaping passes on every string. */
  lemma UnescapeInvertsEscape(s: string)
    ensures Unescape(Escape(s)) == s
  {
    EscapeIsEncoded(s);
    UnescapePass(s, 2);
    UnescapePass(s, 1);
    UnescapePass(s, 0);
    EncodedAtZero(s);
  }

  /** An escaped string is free of separators, and empty only if the string is. */
  lemma {:induction false} EncodedIsClean(s: string)
    ensures PARAM_SEPARATOR !in Encoded(s, 3) && KEY_VALUE_SEPARATOR !in Encoded(s, 3)
    ensures Encoded(s, 3) == "" <==> s == ""
  {
    if s != "" {
      EncodedIsClean(s[1..]);
    }
  }

  // ---------------------------------------------------------------- the written form

  /** The text that stands for a key or a value. */
  function Written(part: string): string {
    if part == "" then ""
    else (if part[0] == '$' then "$2" else if part[0] == ',' then "$1" else if part[0] == ':' then "$0" else [part[0]]) + Written(part[1..])
  }

  lemma {:induction false} WrittenIsEncoded(part: string)
    ensures Encoded(part, 3) == Written(part)
  {
    if part != "" {
      WrittenIsEncoded(part[1..]);
    }
  }

  /** Escaping goes character by character, in one sweep. */
  lemma EscapeWrites(part: string)
    ensures Escape(part) == Written(part)
  {
    EscapeIsEncoded(part);
    WrittenIsEncoded(part);
  }

  /** An empty map is "[empty]"; otherwise keys and values are written with a colon, and the pairs with commas between them. */
  lemma SerializedForm(data: map<string, string>, keys: seq<string>)
    requires forall k :: k in keys ==> k in data
    ensures Serialized(data, keys) ==
            if keys == [] then "[empty]"
            else Join(seq(|keys|, i requires 0 <= i < |keys| => Written(keys[i]) + ":" + Written(data[keys[i]])), ',')
  {
    var pairs := seq(|keys|, i requires 0 <= i < |keys| => Written(keys[i]) + ":" + Written(data[keys[i]]));
    forall i: nat | i < |keys|
      ensures Pairs(data, keys)[i] == pairs[i]
    {
      EscapeWrites(keys[i]);
      EscapeWrites(data[keys[i]]);
    }
    assert Pairs(data, keys) == pairs;
  }

  /** The first `level` of the escapes "$0", "$1" and "$2", read from left to right. Other characters stand for themselves. */
  function Read(text: string, level: nat): string {
    if text == "" then ""
    else if |text| > 1 && text[0] == '$' && text[1] == '0' && level >= 1 then ":" + Read(text[2..], level)
    else if |text| > 1 && text[0] == '$' && text[1] == '1' && level >= 2 then "," + Read(text[2..], level)
    else if |text| > 1 && text[0] == '$' && text[1] == '2' && level >= 3 then "$" + Read(text[2..], level)
    else [text[0]] + Read(text[1..], level)
  }

  lemma ReadHead(text: string, level: nat)
    requires level < 3
    ensures (Read(text, level) == "") == (text == "")
    ensures text != "" && '0' <= text[0] <= '9' ==> Read(text, level)[0] == text[0]
    ensures text != "" && !('0' <= text[0] <= '9') ==> !('0' <= Read(text, level)[0] <= '9')
  {
  }

  /** The text of an escape sequence, and what it stands for. */
  function SequenceOf(level: nat): (src: string)
    requires level < 3
    ensures |src| == 2 && src[0] == '$' && '0' <= src[1] <= '9'
  {
    if level == 0 then "$0" else if level == 1 then "$1" else "$2"
  }

  function Meant(level: nat): string
    requires level < 3
  {
    if level == 0 then ":" else if level == 1 then "," else "$"
  }

  /** Each pass of the parsing constructor reads one more of the escapes. */
  lemma {:induction false} ReadPass(text: string, level: nat)
    requires level < 3
    ensures Replace(Read(text, level), SequenceOf(level), Meant(level)) == Read(text, level + 1)
    decreases |text|
  {
    if text != "" {
      ReadPass(text[1..], level);
      if |text| > 1 && text[0] == '$' && '0' <= text[1] <= '0' + level as char {
        ReadPass(text[2..], level);
        ReadPassEscape(text, level);
      } else {
        ReadPassPlain(text, level);
      }
    }
  }

  /** At an escape that has been read, or is read now. */
  lemma ReadPassEscape(text: string, level: nat)
    requires level < 3 && |text| > 1 && text[0] == '$' && '0' <= text[1] <= '0' + level as char
    requires Replace(Read(text[2..], level), SequenceOf(level), Meant(level)) == Read(text[2..], level + 1)
    ensures Replace(Read(text, level), SequenceOf(level), Meant(level)) == Read(text, level + 1)
  {
    if text[1] == SequenceOf(level)[1] {
      ReadsNow(text, level);
      ReplaceHit(Read(text[2..], level), SequenceOf(level), Meant(level));
    } else {
      ReplaceMiss(if text[1] == '0' then ':' else ',', Read(text[2..], level), SequenceOf(level), Meant(level));
    }
  }

  lemma ReadsNow(text: string, level: nat)
    requires level < 3 && |text| > 1 && text[0] == '$' && text[1] == SequenceOf(level)[1]
    ensures Read(text, level) == SequenceOf(level) + Read(text[2..], level)
    ensures Read(text, level + 1) == Meant(level) + Read(text[2..], level + 1)
  {
    assert text[1..][1..] == text[2..];
    assert Read(text[1..], level) == [text[1]] + Read(text[2..], level);
    assert SequenceOf(level) == ['$'] + [text[1]];
    assert ['$'] + ([text[1]] + Read(text[2..], level)) == SequenceOf(level) + Read(text[2..], level);
  }

  /** At any other character. */
  lemma ReadPassPlain(text: string, level: nat)
    requires level < 3 && text != "" && !(|text| > 1 && text[0] == '$' && '0' <= text[1] <= '0' + level as char)
    requires Replace(Read(text[1..], level), SequenceOf(level), Meant(level)) == Read(text[1..], level + 1)
    ensures Replace(Read(text, level), SequenceOf(level), Meant(level)) == Read(text, level + 1)
  {
    ReadHead(text[1..], level);
    ReplaceMiss(text[0], Read(text[1..], level), SequenceOf(level), Meant(level));
  }

  lemma {:induction false} ReadNothing(text: string)
    ensures Read(text, 0) == text
  {
    if text != "" {
      ReadNothing(text[1..]);
    }
  }

  /** Whatever the text, the three passes together read it from left to right. */
  lemma UnescapeReads(text: string)
    ensures Unescape(text) == Read(text, 3)
  {
    ReadNothing(text);
    ReadPass(text, 0);
    ReadPass(text, 1);
    ReadPass(text, 2);
  }

  /** The piece makes an entry for this key. */
  predicate IsPairFor(piece: string, key: string) {
    |Split(piece, ':')| == 2 && Read(Split(piece, ':')[0], 3) == key
  }

  ghost predicate NoPairAfter(pieces: seq<string>, i: nat, key: string) {
    forall j: nat :: i < j < |pieces| ==> !IsPairFor(pieces[j], key)
  }

  /** Piece `i` is the last that makes an entry for the key. */
  ghost predicate IsLastPair(pieces: seq<string>, i: nat, key: string) {
    i < |pieces| && IsPairFor(pieces[i], key) && NoPairAfter(pieces, i, key)
  }

  /** The key has the value of the last piece that makes an entry for it, and is absent if no piece does. */
  ghost predicate LooksUp(data: map<string, string>, pieces: seq<string>, key: string) {
    && ((forall i: nat :: i < |pieces| ==> !IsPairFor(pieces[i], key)) ==> key !in data)
    && forall i: nat :: IsLastPair(pieces, i, key) ==> key in data && data[key] == Read(Split(pieces[i], ':')[1], 3)
  }

  lemma {:induction false} LastPairCounts(pieces: seq<string>, key: string)
    ensures LooksUp(AddPairs(pieces), pieces, key)
    decreases |pieces|
  {
    if pieces != [] {
      LastPairCounts(pieces[..|pieces| - 1], key);
      OneMorePiece(AddPairs(pieces[..|pieces| - 1]), pieces[..|pieces| - 1], pieces[|pieces| - 1], key);
      assert pieces[..|pieces| - 1] + [pieces[|pieces| - 1]] == pieces;
    }
  }

  lemma PieceAdds(data: map<string, string>, piece: string, key: string)
    ensures if IsPairFor(piece, key) then key in AddPair(data, piece) && AddPair(data, piece)[key] == Read(Split(piece, ':')[1], 3)
            else (key in AddPair(data, piece) <==> key in data) && (key in data ==> AddPair(data, piece)[key] == data[key])
  {
    var kv := Split(piece, ':');
    if |kv| == 2 {
      UnescapeReads(kv[0]);
      UnescapeReads(kv[1]);
    }
  }

  lemma LastPairSnoc(pieces: seq<string>, piece: string, key: string, i: nat)
    requires IsLastPair(pieces + [piece], i, key)
    ensures i <= |pieces| && if IsPairFor(piece, key) then i == |pieces| else IsLastPair(pieces, i, key)
  {
    var n, all := |pieces|, pieces + [piece];
    assert all[n] == piece;
    if i < n {
      assert !IsPairFor(all[n], key);
      forall j: nat | i < j < n
        ensures !IsPairFor(pieces[j], key)
      {
        assert pieces[j] == all[j];
      }
    }
  }

  lemma OneMorePiece(data: map<string, string>, pieces: seq<string>, piece: string, key: string)
    requires LooksUp(data, pieces, key)
    ensures LooksUp(AddPair(data, piece), pieces + [piece], key)
  {
    var all := pieces + [piece];
    PieceAdds(data, piece, key);
    forall i: nat | IsLastPair(all, i, key)
      ensures key in AddPair(data, piece) && AddPair(data, piece)[key] == Read(Split(all[i], ':')[1], 3)
    {
      LastPairSnoc(pieces, piece, key, i);
    }
    if forall i: nat :: i < |all| ==> !IsPairFor(all[i], key) {
      assert !IsPairFor(all[|pieces|], key);
      forall i: nat | i < |pieces|
        ensures !IsPairFor(pieces[i], key)
      {
        assert pieces[i] == all[i];
      }
    }
  }

  /** Parsing looks every key up among the pieces between commas, unless the text is "[empty]". Pieces that are not two parts are skipped. */
  lemma ParsedLooksUp(text: string, key: string)
    ensures if text == "[empty]" then Parsed(text) == map[] else LooksUp(Parsed(text), Split(text, ','), key)
  {
    LastPairCounts(Split(text, ','), key);
  }

  // ---------------------------------------------------------------- the round trip

  /** The piece written for an entry is read back as that entry, unless the value is empty. */
  lemma PairRoundTrip(data: map<string, string>, key: string, value: string)
    ensures AddPair(data, Escape(key) + [KEY_VALUE_SEPARATOR] + Escape(value)) == if value == "" then data else data[key := value]
  {
    var k, v := Escape(key), Escape(value);
    EscapeIsEncoded(key);
    EscapeIsEncoded(value);
    EncodedIsClean(key);
    EncodedIsClean(value);
    assert Split(k + [KEY_VALUE_SEPARATOR] + v, KEY_VALUE_SEPARATOR) == [k] + Split(v, KEY_VALUE_SEPARATOR) by {
      SplitFirst(k, v, KEY_VALUE_SEPARATOR);
    }
    if value != "" {
      SplitOne(v, KEY_VALUE_SEPARATOR);
      UnescapeInvertsEscape(key);
      UnescapeInvertsEscape(value);
    }
  }

  /** The entries with a value, among the first keys. */
  function NonEmpty(data: map<string, string>, keys: seq<string>): map<string, string> {
    map k | k in keys && k in data && data[k] != "" :: data[k]
  }

  lemma NonEmptyLast(data: map<string, string>, keys: seq<string>)
    requires keys != [] && keys[|keys| - 1] in data
    ensures var n := |keys| - 1;
            NonEmpty(data, keys) ==
            if data[keys[n]] == "" then NonEmpty(data, keys[..n]) else NonEmpty(data, keys[..n])[keys[n] := data[keys[n]]]
  {
    var n := |keys| - 1;
    assert keys == keys[..n] + [keys[n]];
  }

  lemma {:induction false} PairsRoundTrip(data: map<string, string>, keys: seq<string>)
    requires forall k :: k in keys ==> k in data
    ensures AddPairs(Pairs(data, keys)) == NonEmpty(data, keys)
    decreases |keys|
  {
    if keys != [] {
      var n := |keys| - 1;
      PairsRoundTrip(data, keys[..n]);
      assert Pairs(data, keys)[..n] == Pairs(data, keys[..n]);
      PairRoundTrip(NonEmpty(data, keys[..n]), keys[n], data[keys[n]]);
      NonEmptyLast(data, keys);
    }
  }

  lemma PiecesAreClean(data: map<string, string>, keys: seq<string>)
    requires forall k :: k in keys ==> k in data
    ensures forall p :: p in Pairs(data, keys) ==> PARAM_SEPARATOR !in p && KEY_VALUE_SEPARATOR in p
  {
    var pieces := Pairs(data, keys);
    forall i | 0 <= i < |pieces|
      ensures PARAM_SEPARATOR !in pieces[i] && KEY_VALUE_SEPARATOR in pieces[i]
    {
      EscapeIsEncoded(keys[i]);
      EscapeIsEncoded(data[keys[i]]);
      EncodedIsClean(keys[i]);
      EncodedIsClean(data[keys[i]]);
    }
  }

  /** A separator in the first piece is one of the joined string, which therefore is not the placeholder. */
  lemma NotPlaceholder(pieces: seq<string>)
    requires pieces != [] && KEY_VALUE_SEPARATOR in pieces[0]
    ensures Join(pieces, PARAM_SEPARATOR) != EMPTY_PLACEHOLDER
  {
    var i :| 0 <= i < |pieces[0]| && pieces[0][i] == KEY_VALUE_SEPARATOR;
    assert Join(pieces, PARAM_SEPARATOR)[i] == KEY_VALUE_SEPARATOR;
    assert KEY_VALUE_SEPARATOR !in EMPTY_PLACEHOLDER;
  }

  /** Parsing what was serialized gives back exactly the entries whose value is not empty. */
  lemma RoundTrip(data: map<string, string>, keys: seq<string>)
    requires Enumerates(keys, data)
    ensures Parsed(Serialized(data, keys)) == map k | k in data && data[k] != "" :: data[k]
  {
    assert NonEmpty(data, keys) == map k | k in data && data[k] != "" :: data[k];
    if keys != [] {
      var pieces := Pairs(data, keys);
      PiecesAreClean(data, keys);
      assert pieces[0] in pieces && pieces[|pieces| - 1] in pieces;
      SplitInvertsJoin(pieces, PARAM_SEPARATOR);
      NotPlaceholder(pieces);
      PairsRoundTrip(data, keys);
    }
  }

  /** So the round trip is exact if and only if no value is empty. */
  lemma RoundTripExactIff(data: map<string, string>, keys: seq<string>)
    requires Enumerates(keys, data)
    ensures Parsed(Serialized(data, keys)) == data <==> forall k :: k in data ==> data[k] != ""
  {
    RoundTrip(data, keys);
    var kept := map k | k in data && data[k] != "" :: data[k];
    if kept == data {
      assert forall k :: k in data ==> k in kept;
    }
  }

  /** For example, a single entry whose value is empty is lost. */
  lemma EmptyValueIsLost()
    ensures Enumerates(["a"], map["a" := ""]) && Parsed(Serialized(map["a" := ""], ["a"])) == map[]
  {
    assert Enumerates(["a"], map["a" := ""]);
    RoundTrip(map["a" := ""], ["a"]);
  }

  // ---------------------------------------------------------------- the class

  method UnescapePart(part: string) returns (r: string)
    ensures r == Unescape(part)
  {
    r := ReplaceAll(part, KEY_VALUE_SEPARATOR_ESCAPE, [KEY_VALUE_SEPARATOR]);
    r := ReplaceAll(r, PARAM_SEPARATOR_ESCAPE, [PARAM_SEPARATOR]);
    r := ReplaceAll(r, ESCAPE_CHARACTER_ESCAPE, [ESCAPE_CHARACTER]);
  }

  method EscapePart(part: string) returns (r: string)
    ensures r == Escape(part)
  {
    r := ReplaceAll(part, [ESCAPE_CHARACTER], ESCAPE_CHARACTER_ESCAPE);
    r := ReplaceAll(r, [PARAM_SEPARATOR], PARAM_SEPARATOR_ESCAPE);
    r := ReplaceAll(r, [KEY_VALUE_SEPARATOR], KEY_VALUE_SEPARATOR_ESCAPE);
  }

  class Package {
    var data: map<string, string>

    constructor (serialized: string)
      ensures data == Parsed(serialized)
    {
      data := map[];
      new;
      if serialized != EMPTY_PLACEHOLDER {
        var pairs := SplitString(serialized, PARAM_SEPARATOR);
        var i := 0;
        while i < |pairs|
          invariant 0 <= i <= |pairs|
          invariant data == AddPairs(pairs[..i])
        {
          assert pairs[..i + 1][..i] == pairs[..i];
          AddOne(pairs[i]);
          i := i + 1;
        }
        assert pairs[..i] == pairs;
      }
    }

    /** One piece. */
    method AddOne(pair: string)
      modifies this
      ensures data == AddPair(old(data), pair)
    {
      var keyValue := SplitString(pair, KEY_VALUE_SEPARATOR);
      if |keyValue| == 2 {
        var key := UnescapePart(keyValue[0]);
        var value := UnescapePart(keyValue[1]);
        Set(key, value);
      }
    }

    method Set(key: string, value: string)
      modifies this
      ensures data == old(data)[key := value]
    {
      data := data[key := value];
    }

    /** `keys` is the iteration order of the map. */
    method Serialize(keys: seq<string>) returns (result: string)
      requires Enumerates(keys, data)
      ensures result == Serialized(data, keys)
    {
      if keys == [] {
        return EMPTY_PLACEHOLDER;
      }
      result := JoinPairs(data, keys);
    }
  }

  /** The loop of `Serialize`, and the removal of the last separator. */
  method JoinPairs(data: map<string, string>, keys: seq<string>) returns (result: string)
    requires keys != [] && forall k :: k in keys ==> k in data
    ensures result == Join(Pairs(data, keys), PARAM_SEPARATOR)
  {
    result := "";
    var i := 0;
    ghost var pieces := Pairs(data, keys);
    while i < |keys|
      invariant 0 <= i <= |keys|
      invariant result + Terminate(pieces[i..], PARAM_SEPARATOR) == Terminate(pieces, PARAM_SEPARATOR)
    {
      var key := EscapePart(keys[i]);
      var value := EscapePart(data[keys[i]]);
      var piece := key + [KEY_VALUE_SEPARATOR] + value;
      TerminateFrom(pieces, i, result, piece);
      result := result + (piece + [PARAM_SEPARATOR]);
      i := i + 1;
    }
    assert pieces[i..] == [];
    TerminateIsJoin(pieces, PARAM_SEPARATOR);
    assert result == Join(pieces, PARAM_SEPARATOR) + [PARAM_SEPARATOR];
    result := result[..|result| - 1];
  }

  lemma TerminateFrom(pieces: seq<string>, i: nat, before: string, piece: string)
    requires i < |pieces| && piece == pieces[i]
    ensures before + (piece + [PARAM_SEPARATOR]) + Terminate(pieces[i + 1..], PARAM_SEPARATOR) ==
            before + Terminate(pieces[i..], PARAM_SEPARATOR)
  {
    assert pieces[i..][1..] == pieces[i + 1..];
  }
}
