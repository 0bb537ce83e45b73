/** `Common::ReplaceAll` and `Common::SplitString`. */
module StringUtil {
  import opened Common

  /** `src` occurs in `s` at `i`. */
  predicate MatchesAt(s: string, src: string, i: nat) {
    i + |src| <= |s| && s[i..i + |src|] == src
  }

  /** Every occurrence of `src`, leftmost first and without overlap, becomes `dest`. */
  function Replace(s: string, src: string, dest: string): string
    requires src != ""
  {
    if s == "" then ""
    else if MatchesAt(s, src, 0) then dest + Replace(s[|src|..], src, dest)
    else [s[0]] + Replace(s[1..], src, dest)
  }

  lemma MatchShift(s: string, src: string, pos: nat)
    requires pos <= |s|
    ensures forall j: nat :: MatchesAt(s[pos..], src, j) <==> MatchesAt(s, src, pos + j)
  {
    forall j: nat
      ensures MatchesAt(s[pos..], src, j) <==> MatchesAt(s, src, pos + j)
    {
      if pos + j + |src| <= |s| {
        assert s[pos..][j..j + |src|] == s[pos + j..pos + j + |src|];
      }
    }
  }

  lemma Regroup(s: string, pos: nat, i: nat, rest: string)
    requires pos <= i <= |s|
    ensures s[..pos] + (s[pos..][..i - pos] + rest) == s[..i] + rest
    ensures s[pos..][i - pos..] == s[i..]
  {
  }

  lemma {:induction false} ReplaceSkips(s: string, src: string, dest: string, k: nat)
    requires src != "" && k <= |s| && forall i: nat :: i < k ==> !MatchesAt(s, src, i)
    ensures Replace(s, src, dest) == s[..k] + Replace(s[k..], src, dest)
    decreases k
  {
    if k > 0 {
      assert !MatchesAt(s, src, 0);
      MatchShift(s, src, 1);
      ReplaceSkips(s[1..], src, dest, k - 1);
      Regroup(s, 1, k, Replace(s[k..], src, dest));
      assert s[..1] == [s[0]];
    } else {
      assert s[0..] == s;
    }
  }

  lemma {:induction false} ReplaceNone(s: string, src: string, dest: string)
    requires src != "" && forall i: nat :: i < |s| ==> !MatchesAt(s, src, i)
    ensures Replace(s, src, dest) == s
  {
    ReplaceSkips(s, src, dest, |s|);
  }

  /** `std::string::find` from `pos`; `|s|` stands for `npos`. */
  method Find(s: string, src: string, pos: nat) returns (i: nat)
    requires pos <= |s| && src != ""
    ensures pos <= i <= |s| && (i < |s| ==> MatchesAt(s, src, i))
    ensures forall j :: pos <= j < i ==> !MatchesAt(s, src, j)
  {
    i := pos;
    while i < |s| && !MatchesAt(s, src, i)
      invariant pos <= i <= |s|
      invariant forall j :: pos <= j < i ==> !MatchesAt(s, src, j)
    {
      i := i + 1;
    }
  }

  lemma ReplaceHere(s: string, src: string, dest: string, i: nat)
    requires src != "" && MatchesAt(s, src, i)
    ensures Replace(s[i..], src, dest) == dest + Replace(s[i + |src|..], src, dest)
  {
    var rest := s[i..];
    assert rest[0..|src|] == s[i..i + |src|];
    assert rest[|src|..] == s[i + |src|..];
  }

  lemma SplitAfter(done: string, tail: string)
    ensures (done + tail)[..|done|] == done && (done + tail)[|done|..] == tail
  {
  }

  /** Replacing the first match from `pos` on leaves as much to do behind the replacement as there was from `pos`. */
  lemma ReplaceFirst(s: string, src: string, dest: string, pos: nat, i: nat)
    requires src != "" && pos <= i < |s| && MatchesAt(s, src, i)
    requires forall j :: pos <= j < i ==> !MatchesAt(s, src, j)
    ensures s[..pos] + Replace(s[pos..], src, dest) == (s[..i] + dest) + Replace(s[i + |src|..], src, dest)
  {
    MatchShift(s, src, pos);
    ReplaceSkips(s[pos..], src, dest, i - pos);
    Regroup(s, pos, i, Replace(s[i..], src, dest));
    ReplaceHere(s, src, dest, i);
    Associate(s[..i], dest, Replace(s[i + |src|..], src, dest));
  }

  lemma Associate(a: string, b: string, c: string)
    ensures a + (b + c) == (a + b) + c
  {
  }

  lemma ReplaceRest(s: string, src: string, dest: string, pos: nat)
    requires src != "" && pos <= |s| && forall j :: pos <= j < |s| ==> !MatchesAt(s, src, j)
    ensures s[..pos] + Replace(s[pos..], src, dest) == s
  {
    MatchShift(s, src, pos);
    ReplaceNone(s[pos..], src, dest);
  }

  // ---------------------------------------------------------------- what is replaced

  /** The pieces with `glue` between them. */
  function Glued(pieces: seq<string>, glue: string): string {
    if pieces == [] then "" else if |pieces| == 1 then pieces[0] else pieces[0] + glue + Glued(pieces[1..], glue)
  }

  /** With `src` behind it, the piece has no match before that one. */
  ghost predicate EndsAtMatch(piece: string, src: string) {
    forall j: nat :: j < |piece| ==> !MatchesAt(piece + src, src, j)
  }

  /** Behind every piece but the last comes the first match of `src`; the last has none. */
  ghost predicate CutAtMatches(pieces: seq<string>, src: string) {
    && pieces != []
    && if |pieces| == 1 then FoundAt(pieces[0], src, 0).None? else EndsAtMatch(pieces[0], src) && CutAtMatches(pieces[1..], src)
  }

  lemma MatchInFront(p: string, src: string, rest: string, j: nat)
    requires j <= |p|
    ensures MatchesAt(p + src + rest, src, j) <==> MatchesAt(p + src, src, j)
  {
    assert (p + src + rest)[j..j + |src|] == (p + src)[j..j + |src|];
  }

  lemma ReplaceBehindPiece(p: string, src: string, dest: string, tail: string)
    requires src != "" && EndsAtMatch(p, src)
    ensures Replace(p + src + tail, src, dest) == p + dest + Replace(tail, src, dest)
  {
    var s := p + src + tail;
    forall j: nat | j < |p|
      ensures !MatchesAt(s, src, j)
    {
      MatchInFront(p, src, tail, j);
    }
    assert s[..|p|] == p && s[|p|..|p| + |src|] == src && s[|p| + |src|..] == tail;
    ReplaceSkips(s, src, dest, |p|);
    ReplaceHere(s, src, dest, |p|);
    Associate(p, dest, Replace(tail, src, dest));
  }

  /** A text cut at its matches, leftmost first, has each of them replaced and nothing else. */
  lemma {:induction false} ReplaceReglues(pieces: seq<string>, src: string, dest: string)
    requires src != "" && CutAtMatches(pieces, src)
    ensures Replace(Glued(pieces, src), src, dest) == Glued(pieces, dest)
    decreases |pieces|
  {
    if |pieces| == 1 {
      ReplaceNone(pieces[0], src, dest);
    } else {
      ReplaceReglues(pieces[1..], src, dest);
      ReplaceBehindPiece(pieces[0], src, dest, Glued(pieces[1..], src));
    }
  }

  lemma FirstMatchCuts(s: string, src: string, i: nat)
    requires FoundAt(s, src, 0) == Some(i)
    ensures s[..i] + src + s[i + |src|..] == s && EndsAtMatch(s[..i], src)
  {
    assert s[..i] + s[i..i + |src|] + s[i + |src|..] == s;
    NoMatchBefore(s[..i], src, s[i + |src|..], s);
  }

  lemma NoMatchBefore(p: string, src: string, rest: string, s: string)
    requires s == p + src + rest && FoundAt(s, src, 0) == Some(|p|)
    ensures EndsAtMatch(p, src)
  {
    forall j: nat | j < |p|
      ensures !MatchesAt(p + src, src, j)
    {
      MatchInFront(p, src, rest, j);
    }
  }

  /** Every text can be cut so. */
  lemma {:induction false} EveryTextIsCut(s: string, src: string) returns (pieces: seq<string>)
    requires src != ""
    ensures CutAtMatches(pieces, src) && Glued(pieces, src) == s
    decreases |s|
  {
    var found := FoundAt(s, src, 0);
    if found.None? {
      pieces := [s];
    } else {
      FirstMatchCuts(s, src, found.value);
      var rest := EveryTextIsCut(s[found.value + |src|..], src);
      pieces := [s[..found.value]] + rest;
      assert pieces[1..] == rest;
    }
  }

  // ---------------------------------------------------------------- when the loop of `ReplaceAll` ends

  /** The first match from `pos` on; `None` is `npos`. */
  function FoundAt(s: string, src: string, pos: nat): (found: Option<nat>)
    ensures found.Some? ==> pos <= found.value && MatchesAt(s, src, found.value)
    ensures found.Some? ==> forall j: nat :: pos <= j < found.value ==> !MatchesAt(s, src, j)
    ensures found.None? ==> forall j: nat :: pos <= j ==> !MatchesAt(s, src, j)
    decreases |s| - pos
  {
    if pos > |s| then None else if MatchesAt(s, src, pos) then Some(pos) else FoundAt(s, src, pos + 1)
  }

  /** What the loop works on. */
  datatype Search = Search(result: string, pos: nat)

  /** One pass; `None` when nothing is found and the loop ends. */
  function Pass(s: Search, src: string, dest: string): Option<Search> {
    match FoundAt(s.result, src, s.pos)
    case None => None
    case Some(i) => Some(Search(s.result[..i] + dest + s.result[i + |src|..], i + |dest|))
  }

  /** After `n` passes, if the loop comes to make so many. */
  function AfterPasses(text: string, src: string, dest: string, n: nat): Option<Search> {
    if n == 0 then Some(Search(text, 0))
    else match AfterPasses(text, src, dest, n - 1) case None => None case Some(s) => Pass(s, src, dest)
  }

  /** Nothing is to be done, or the loop ends. */
  ghost predicate Returns(text: string, src: string, dest: string) {
    src == dest || exists n: nat :: AfterPasses(text, src, dest, n).None?
  }

  function Repeated(s: string, n: nat): string {
    if n == 0 then "" else Repeated(s, n - 1) + s
  }

  /** An empty `src` is found at every position, so each pass puts one more `dest` in front of the text. */
  lemma {:induction false} EmptyIsFoundForEver(text: string, dest: string, n: nat)
    ensures AfterPasses(text, "", dest, n) == Some(Search(Repeated(dest, n) + text, |Repeated(dest, n)|))
  {
    if n > 0 {
      EmptyIsFoundForEver(text, dest, n - 1);
      var done := Repeated(dest, n - 1);
      assert MatchesAt(done + text, "", |done|);
      assert (done + text)[..|done|] == done && (done + text)[|done|..] == text;
      assert done + dest + text == (done + dest) + text;
    } else {
      assert "" + text == text;
    }
  }

  /** Otherwise each pass leaves less text to look at. */
  lemma PassLeavesLess(s: Search, src: string, dest: string)
    requires src != "" && s.pos <= |s.result| && Pass(s, src, dest).Some?
    ensures var after := Pass(s, src, dest).value;
            after.pos <= |after.result| && |after.result| - after.pos < |s.result| - s.pos
  {
  }

  lemma {:induction false} LoopStops(text: string, src: string, dest: string, n: nat)
    requires src != ""
    requires var s := AfterPasses(text, src, dest, n); s.Some? ==> s.value.pos <= |s.value.result|
    ensures exists m: nat :: AfterPasses(text, src, dest, m).None?
    decreases var s := AfterPasses(text, src, dest, n); if s.Some? then |s.value.result| - s.value.pos + 1 else 0
  {
    var s := AfterPasses(text, src, dest, n);
    if s.Some? {
      assert AfterPasses(text, src, dest, n + 1) == Pass(s.value, src, dest);
      if Pass(s.value, src, dest).Some? {
        PassLeavesLess(s.value, src, dest);
      }
      LoopStops(text, src, dest, n + 1);
    }
  }

  /** `ReplaceAll` returns, for whatever text, if and only if the pattern or the replacement decides it so. */
  lemma ReturnsIff(text: string, src: string, dest: string)
    ensures Returns(text, src, dest) <==> src != "" || dest == ""
  {
    if src != "" {
      LoopStops(text, src, dest, 0);
    } else if dest != "" {
      forall n: nat
        ensures AfterPasses(text, src, dest, n).Some?
      {
        EmptyIsFoundForEver(text, dest, n);
      }
    }
  }

  /** An empty `src` is found for ever, unless `dest` is empty too: `ReturnsIff`. */
  method ReplaceAll(text: string, src: string, dest: string) returns (result: string)
    requires src != "" || dest == ""
    ensures result == if src == "" then text else Replace(text, src, dest)
  {
    result := text;
    if src == dest {
      if src != "" {
        ReplaceBySelf(text, src);
      }
      return;
    }
    var pos := 0;
    var i := Find(result, src, pos);
    while i < |result|
      invariant 0 <= pos <= i <= |result|
      invariant i < |result| ==> MatchesAt(result, src, i)
      invariant forall j :: pos <= j < i ==> !MatchesAt(result, src, j)
      invariant result[..pos] + Replace(result[pos..], src, dest) == Replace(text, src, dest)
      decreases |result| - pos
    {
      ReplaceFirst(result, src, dest, pos, i);
      SplitAfter(result[..i] + dest, result[i + |src|..]);
      result := result[..i] + dest + result[i + |src|..];
      pos := i + |dest|;
      i := Find(result, src, pos);
    }
    ReplaceRest(result, src, dest, pos);
  }

  lemma {:induction false} ReplaceBySelf(s: string, src: string)
    requires src != ""
    ensures Replace(s, src, src) == s
    decreases |s|
  {
    if s != "" {
      if MatchesAt(s, src, 0) {
        ReplaceBySelf(s[|src|..], src);
        assert s == s[0..|src|] + s[|src|..];
      } else {
        ReplaceBySelf(s[1..], src);
      }
    }
  }

  // ---------------------------------------------------------------- splitting

  /** The index of the first `delim`, or the length. */
  function IndexOf(s: string, delim: char): (i: nat)
    ensures i <= |s| && (i < |s| ==> s[i] == delim) && delim !in s[..i]
  {
    if s == "" || s[0] == delim then 0 else 1 + IndexOf(s[1..], delim)
  }

  /** Pieces between delimiters; an empty piece at the very end is not one. */
  function Split(s: string, delim: char): seq<string> {
    if s == "" then []
    else
      var i := IndexOf(s, delim);
      [s[..i]] + if i < |s| then Split(s[i + 1..], delim) else []
  }

  /** `std::getline` from `pos`: fails only when nothing is left. */
  method GetLine(s: string, pos: nat, delim: char) returns (ok: bool, line: string, next: nat)
    requires pos <= |s|
    ensures ok == (pos < |s|)
    ensures ok ==> pos < next <= |s| && Split(s[pos..], delim) == [line] + Split(s[next..], delim)
  {
    if pos == |s| {
      return false, "", pos;
    }
    var i := pos;
    while i < |s| && s[i] != delim
      invariant pos <= i <= |s|
      invariant delim !in s[pos..i]
    {
      i := i + 1;
    }
    line := s[pos..i];
    ok := true;
    next := if i < |s| then i + 1 else i;
    FirstPiece(s, pos, i, next, delim);
  }

  /** The piece from `pos` ends at the first delimiter, and the others begin behind it. */
  lemma FirstPiece(s: string, pos: nat, i: nat, next: nat, delim: char)
    requires pos <= i <= |s| && pos < |s| && delim !in s[pos..i] && (i < |s| ==> s[i] == delim)
    requires next == if i < |s| then i + 1 else i
    ensures Split(s[pos..], delim) == [s[pos..i]] + Split(s[next..], delim)
  {
    IndexOfIs(s[pos..], delim, i - pos);
    assert s[pos..][..i - pos] == s[pos..i];
    if i < |s| {
      assert s[pos..][i - pos + 1..] == s[next..];
    } else {
      assert s[next..] == "";
    }
  }

  lemma {:induction false} IndexOfIs(s: string, delim: char, i: nat)
    requires i <= |s| && (i < |s| ==> s[i] == delim) && delim !in s[..i]
    ensures IndexOf(s, delim) == i
  {
    if i > 0 {
      assert s[..i][0] == s[0];
      assert s[1..][..i - 1] == s[..i][1..];
      IndexOfIs(s[1..], delim, i - 1);
    }
  }

  method SplitString(str: string, delim: char) returns (output: seq<string>)
    ensures output == Split(str, delim)
  {
    output := [];
    var pos := 0;
    var ok, line, next := GetLine(str, pos, delim);
    assert str[0..] == str;
    while ok
      invariant 0 <= pos <= |str| && ok == (pos < |str|)
      invariant ok ==> pos < next <= |str| && Split(str[pos..], delim) == [line] + Split(str[next..], delim)
      invariant output + Split(str[pos..], delim) == Split(str, delim)
      decreases |str| - pos
    {
      output := output + [line];
      pos := next;
      ok, line, next := GetLine(str, pos, delim);
    }
    assert str[pos..] == "";
  }

  // ---------------------------------------------------------------- joining

  /** Pieces with a delimiter after each. */
  function Terminate(pieces: seq<string>, delim: char): string {
    if pieces == [] then "" else pieces[0] + [delim] + Terminate(pieces[1..], delim)
  }

  lemma SplitFirst(p: string, rest: string, delim: char)
    requires delim !in p
    ensures Split(p + [delim] + rest, delim) == [p] + Split(rest, delim)
  {
    var t := p + [delim] + rest;
    assert t[..|p|] == p && t[|p| + 1..] == rest && t[|p|] == delim;
    IndexOfIs(t, delim, |p|);
  }

  lemma SplitOne(p: string, delim: char)
    requires delim !in p && p != ""
    ensures Split(p, delim) == [p]
  {
    assert p[..|p|] == p;
    IndexOfIs(p, delim, |p|);
  }

  /** Pieces with a delimiter between them. */
  function Join(pieces: seq<string>, delim: char): string {
    if pieces == [] then "" else if |pieces| == 1 then pieces[0] else pieces[0] + [delim] + Join(pieces[1..], delim)
  }

  lemma {:induction false} TerminateIsJoin(pieces: seq<string>, delim: char)
    requires pieces != []
    ensures Terminate(pieces, delim) == Join(pieces, delim) + [delim]
    decreases |pieces|
  {
    if |pieces| > 1 {
      TerminateIsJoin(pieces[1..], delim);
    } else {
      assert Terminate(pieces[1..], delim) == "";
    }
  }

  /** An empty last piece is dropped. */
  function WithoutEmptyEnd(pieces: seq<string>): seq<string>
    requires pieces != []
  {
    if pieces[|pieces| - 1] == "" then pieces[..|pieces| - 1] else pieces
  }

  lemma WithoutEmptyEndCons(p: string, rest: seq<string>)
    requires rest != []
    ensures WithoutEmptyEnd([p] + rest) == [p] + WithoutEmptyEnd(rest)
  {
  }

  /** Splitting inverts joining, except that an empty last piece is dropped. */
  lemma {:induction false} SplitInvertsJoin(pieces: seq<string>, delim: char)
    requires pieces != [] && forall p :: p in pieces ==> delim !in p
    ensures Split(Join(pieces, delim), delim) == WithoutEmptyEnd(pieces)
    decreases |pieces|
  {
    var p, rest := pieces[0], pieces[1..];
    assert p in pieces && pieces == [p] + rest;
    if rest == [] {
      if p != "" {
        SplitOne(p, delim);
      }
    } else {
      SplitInvertsJoin(rest, delim);
      SplitFirst(p, Join(rest, delim), delim);
      WithoutEmptyEndCons(p, rest);
    }
  }
}
