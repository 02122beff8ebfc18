/** The identifier patterns of the server, written as data and given meaning
    by a matcher with Go regexp semantics for the constructs they use:
    `^` and `$` anchor at the ends of the text, a bracket class holds
    characters and ranges, `{m,n}` repeats the preceding atom. A pattern
    without anchors matches when some substring matches (regexp.Match). */
module Formats {

  datatype Range = Range(lo: char, hi: char)

  datatype Atom = Lit(c: char) | Class(ranges: seq<Range>)

  /** An atom repeated between min and max times. */
  datatype Piece = Piece(atom: Atom, min: nat, max: nat)

  datatype Pattern = Pattern(anchoredStart: bool, pieces: seq<Piece>, anchoredEnd: bool)

  predicate InRanges(rs: seq<Range>, c: char) {
    exists i :: 0 <= i < |rs| && rs[i].lo <= c <= rs[i].hi
  }

  predicate AtomMatches(a: Atom, c: char) {
    match a
    case Lit(l) => c == l
    case Class(rs) => InRanges(rs, c)
  }

  predicate AllMatch(a: Atom, t: string) {
    forall i :: 0 <= i < |t| ==> AtomMatches(a, t[i])
  }

  /** The pieces, in order, match the whole of t. */
  predicate MatchesExactly(ps: seq<Piece>, t: string)
    decreases |ps|
  {
    if ps == [] then t == []
    else exists k :: ps[0].min <= k <= ps[0].max && k <= |t|
                     && AllMatch(ps[0].atom, t[..k]) && MatchesExactly(ps[1..], t[k..])
  }

  /** regexp.Match: the pattern matches somewhere in s, pinned to an end of s
      where the pattern is anchored. */
  predicate Accepts(p: Pattern, s: string) {
    if p.anchoredStart && p.anchoredEnd then MatchesExactly(p.pieces, s)
    else if p.anchoredStart then exists j :: 0 <= j <= |s| && MatchesExactly(p.pieces, s[..j])
    else if p.anchoredEnd then exists i :: 0 <= i <= |s| && MatchesExactly(p.pieces, s[i..])
    else exists i, j :: 0 <= i <= j <= |s| && MatchesExactly(p.pieces, s[i..j])
  }

  // ---- the character classes the patterns use

  const Digits := Range('0', '9')
  const LowerLetters := Range('a', 'z')
  const UpperLetters := Range('A', 'Z')
  const Alnum := [Digits, LowerLetters, UpperLetters]

  /** `^0x[0-9a-f]{64}$`: a 32-byte root in lower-case hex (common/format.go:6, results/results.go:111). */
  const RootRegex := Pattern(true, [Piece(Lit('0'), 1, 1), Piece(Lit('x'), 1, 1),
                                    Piece(Class([Digits, Range('a', 'f')]), 64, 64)], true)

  /** `^[0-9a-zA-Z][-_0-9a-zA-Z]{0,128}$` (common/format.go:9); listing's
      ClientNameRegex (listing/listing.go:86) is the same pattern. */
  const KeyRegex := Pattern(true, [Piece(Class(Alnum), 1, 1),
                                   Piece(Class([Range('-', '-'), Range('_', '_')] + Alnum), 0, 128)], true)

  /** `^[0-9a-zA-Z][-_.0-9a-zA-Z]{0,128}$` (common/format.go:12, results/results.go:105, listing/listing.go:83). */
  const VersionRegex := Pattern(true, [Piece(Class(Alnum), 1, 1),
                                       Piece(Class([Range('-', '-'), Range('_', '_'), Range('.', '.')] + Alnum), 0, 128)], true)

  /** `^[-0-9a-zA-Z=][-_0-9a-zA-Z=]{0,128}$`, the task-key pattern of
      results/results.go:108 and get_task/task.go:62. */
  const TaskKeyRegex := Pattern(true, [Piece(Class([Range('-', '-')] + Alnum + [Range('=', '=')]), 1, 1),
                                       Piece(Class([Range('-', '-'), Range('_', '_')] + Alnum + [Range('=', '=')]), 0, 128)], true)

  /** `[a-zA-Z0-9.-]`, unanchored (upload/upload.go:92). */
  const UploadVersionRegex := Pattern(false, [Piece(Class([LowerLetters, UpperLetters, Digits, Range('.', '.'), Range('-', '-')]), 1, 1)], false)

  // ---- reference definitions of the same classes, written directly

  predicate IsAlnum(c: char) { '0' <= c <= '9' || 'a' <= c <= 'z' || 'A' <= c <= 'Z' }
  predicate IsLowerHex(c: char) { '0' <= c <= '9' || 'a' <= c <= 'f' }
  predicate IsKeyChar(c: char) { IsAlnum(c) || c == '-' || c == '_' }
  predicate IsVersionChar(c: char) { IsKeyChar(c) || c == '.' }
  predicate IsTaskKeyStart(c: char) { IsAlnum(c) || c == '-' || c == '=' }
  predicate IsTaskKeyChar(c: char) { IsKeyChar(c) || c == '=' }
  predicate IsUploadVersionChar(c: char) { IsAlnum(c) || c == '.' || c == '-' }

  /** A first character from one class, then 0 to 128 from another. */
  predicate HeadTail(s: string, head: char -> bool, tail: char -> bool) {
    1 <= |s| <= 129 && head(s[0]) && forall i :: 1 <= i < |s| ==> tail(s[i])
  }

  // ---- matcher lemmas

  lemma OnePiece(p: Piece, t: string)
    ensures MatchesExactly([p], t) <==> p.min <= |t| <= p.max && AllMatch(p.atom, t)
  {
    assert [p][1..] == [];
    if p.min <= |t| <= p.max && AllMatch(p.atom, t) {
      assert t[..|t|] == t && t[|t|..] == [];
      assert MatchesExactly([p][1..], t[|t|..]);
    }
  }

  /** A piece that occurs exactly once consumes exactly the first character. */
  lemma SinglePieceFirst(p: Piece, rest: seq<Piece>, t: string)
    requires p.min == 1 && p.max == 1
    ensures MatchesExactly([p] + rest, t) <==>
              |t| >= 1 && AtomMatches(p.atom, t[0]) && MatchesExactly(rest, t[1..])
  {
    var ps := [p] + rest;
    assert ps[0] == p && ps[1..] == rest;
    if |t| >= 1 && AtomMatches(p.atom, t[0]) && MatchesExactly(rest, t[1..]) {
      assert AllMatch(p.atom, t[..1]);
    }
  }

  lemma HeadTailPattern(a: Atom, b: Atom, s: string)
    ensures MatchesExactly([Piece(a, 1, 1), Piece(b, 0, 128)], s) <==>
              1 <= |s| <= 129 && AtomMatches(a, s[0]) && AllMatch(b, s[1..])
  {
    assert [Piece(a, 1, 1), Piece(b, 0, 128)] == [Piece(a, 1, 1)] + [Piece(b, 0, 128)];
    SinglePieceFirst(Piece(a, 1, 1), [Piece(b, 0, 128)], s);
    if |s| >= 1 {
      OnePiece(Piece(b, 0, 128), s[1..]);
    }
  }

  // ---- what each pattern accepts

  /** RootRegex accepts exactly "0x" followed by 64 lower-case hex digits. */
  lemma RootRegexShape(s: string)
    ensures Accepts(RootRegex, s) <==>
              |s| == 66 && s[0] == '0' && s[1] == 'x' && forall i :: 2 <= i < 66 ==> IsLowerHex(s[i])
  {
    var hex := Piece(Class([Digits, Range('a', 'f')]), 64, 64);
    var ps := [Piece(Lit('0'), 1, 1), Piece(Lit('x'), 1, 1), hex];
    assert ps == [Piece(Lit('0'), 1, 1)] + [Piece(Lit('x'), 1, 1), hex];
    assert [Piece(Lit('x'), 1, 1), hex] == [Piece(Lit('x'), 1, 1)] + [hex];
    SinglePieceFirst(Piece(Lit('0'), 1, 1), [Piece(Lit('x'), 1, 1), hex], s);
    if |s| >= 1 {
      SinglePieceFirst(Piece(Lit('x'), 1, 1), [hex], s[1..]);
      if |s| >= 2 {
        assert s[1..][1..] == s[2..];
        OnePiece(hex, s[2..]);
        assert AllMatch(hex.atom, s[2..]) <==> forall i :: 2 <= i < |s| ==> IsLowerHex(s[i]) by {
          forall c: char ensures AtomMatches(hex.atom, c) <==> IsLowerHex(c) {
            assert [Digits, Range('a', 'f')][0] == Digits;
            assert [Digits, Range('a', 'f')][1] == Range('a', 'f');
          }
          forall i | 2 <= i < |s| ensures s[2..][i - 2] == s[i] { }
        }
      }
    }
  }

  lemma AlnumClass(c: char)
    ensures InRanges(Alnum, c) <==> IsAlnum(c)
  {
    assert Alnum[0] == Digits && Alnum[1] == LowerLetters && Alnum[2] == UpperLetters;
  }

  lemma KeyTailClass(c: char)
    ensures InRanges([Range('-', '-'), Range('_', '_')] + Alnum, c) <==> IsKeyChar(c)
  {
    var rs := [Range('-', '-'), Range('_', '_')] + Alnum;
    assert rs[0] == Range('-', '-') && rs[1] == Range('_', '_');
    assert rs[2] == Digits && rs[3] == LowerLetters && rs[4] == UpperLetters;
  }

  lemma VersionTailClass(c: char)
    ensures InRanges([Range('-', '-'), Range('_', '_'), Range('.', '.')] + Alnum, c) <==> IsVersionChar(c)
  {
    var rs := [Range('-', '-'), Range('_', '_'), Range('.', '.')] + Alnum;
    assert rs[0] == Range('-', '-') && rs[1] == Range('_', '_') && rs[2] == Range('.', '.');
    assert rs[3] == Digits && rs[4] == LowerLetters && rs[5] == UpperLetters;
  }

  lemma TaskKeyClasses(c: char)
    ensures InRanges([Range('-', '-')] + Alnum + [Range('=', '=')], c) <==> IsTaskKeyStart(c)
    ensures InRanges([Range('-', '-'), Range('_', '_')] + Alnum + [Range('=', '=')], c) <==> IsTaskKeyChar(c)
  {
    var hs := [Range('-', '-')] + Alnum + [Range('=', '=')];
    assert hs[0] == Range('-', '-') && hs[1] == Digits && hs[2] == LowerLetters;
    assert hs[3] == UpperLetters && hs[4] == Range('=', '=');
    var ts := [Range('-', '-'), Range('_', '_')] + Alnum + [Range('=', '=')];
    assert ts[0] == Range('-', '-') && ts[1] == Range('_', '_') && ts[2] == Digits;
    assert ts[3] == LowerLetters && ts[4] == UpperLetters && ts[5] == Range('=', '=');
  }

  /** KeyRegex accepts 1 to 129 characters, the first alphanumeric (so never
      `-` or `_`), the rest alphanumeric, `-` or `_`. */
  lemma KeyRegexShape(s: string)
    ensures Accepts(KeyRegex, s) <==> HeadTail(s, IsAlnum, IsKeyChar)
  {
    var tail := Class([Range('-', '-'), Range('_', '_')] + Alnum);
    HeadTailPattern(Class(Alnum), tail, s);
    if |s| >= 1 {
      AlnumClass(s[0]);
      forall i | 1 <= i < |s| ensures s[1..][i - 1] == s[i] && (AtomMatches(tail, s[i]) <==> IsKeyChar(s[i])) {
        KeyTailClass(s[i]);
      }
    }
  }

  /** VersionRegex: as KeyRegex, and `.` is allowed after the first character. */
  lemma VersionRegexShape(s: string)
    ensures Accepts(VersionRegex, s) <==> HeadTail(s, IsAlnum, IsVersionChar)
  {
    var tail := Class([Range('-', '-'), Range('_', '_'), Range('.', '.')] + Alnum);
    HeadTailPattern(Class(Alnum), tail, s);
    if |s| >= 1 {
      AlnumClass(s[0]);
      forall i | 1 <= i < |s| ensures s[1..][i - 1] == s[i] && (AtomMatches(tail, s[i]) <==> IsVersionChar(s[i])) {
        VersionTailClass(s[i]);
      }
    }
  }

  /** The task-key variant also takes `=` anywhere and `-` first. */
  lemma TaskKeyRegexShape(s: string)
    ensures Accepts(TaskKeyRegex, s) <==> HeadTail(s, IsTaskKeyStart, IsTaskKeyChar)
  {
    var head := Class([Range('-', '-')] + Alnum + [Range('=', '=')]);
    var tail := Class([Range('-', '-'), Range('_', '_')] + Alnum + [Range('=', '=')]);
    HeadTailPattern(head, tail, s);
    if |s| >= 1 {
      TaskKeyClasses(s[0]);
      forall i | 1 <= i < |s| ensures s[1..][i - 1] == s[i] && (AtomMatches(tail, s[i]) <==> IsTaskKeyChar(s[i])) {
        TaskKeyClasses(s[i]);
      }
    }
  }

  /** Being unanchored, the upload pattern only asks for one allowed character somewhere. */
  lemma UploadVersionRegexShape(s: string)
    ensures Accepts(UploadVersionRegex, s) <==> exists i :: 0 <= i < |s| && IsUploadVersionChar(s[i])
  {
    var rs := [LowerLetters, UpperLetters, Digits, Range('.', '.'), Range('-', '-')];
    var p := Piece(Class(rs), 1, 1);
    assert rs[0] == LowerLetters && rs[1] == UpperLetters && rs[2] == Digits;
    assert rs[3] == Range('.', '.') && rs[4] == Range('-', '-');
    if Accepts(UploadVersionRegex, s) {
      var i, j :| 0 <= i <= j <= |s| && MatchesExactly([p], s[i..j]);
      OnePiece(p, s[i..j]);
      assert s[i..j][0] == s[i];
    }
    if exists i :: 0 <= i < |s| && IsUploadVersionChar(s[i]) {
      var i :| 0 <= i < |s| && IsUploadVersionChar(s[i]);
      OnePiece(p, s[i..i + 1]);
      assert MatchesExactly(UploadVersionRegex.pieces, s[i..i + 1]);
    }
  }

  /** Every key is a valid version string. */
  lemma KeyIsVersion(s: string)
    requires Accepts(KeyRegex, s)
    ensures Accepts(VersionRegex, s)
  {
    KeyRegexShape(s);
    VersionRegexShape(s);
  }

  /** Every key of the common pattern passes the task-key pattern, which takes more. */
  lemma KeyIsTaskKey(s: string)
    requires Accepts(KeyRegex, s)
    ensures Accepts(TaskKeyRegex, s)
  {
    KeyRegexShape(s);
    TaskKeyRegexShape(s);
  }

  /** The two key patterns differ: a leading `-` or `=` passes only the task-key one. */
  lemma TaskKeyRegexIsLooser()
    ensures Accepts(TaskKeyRegex, "-") && !Accepts(KeyRegex, "-")
    ensures Accepts(TaskKeyRegex, "=x") && !Accepts(KeyRegex, "=x")
  {
    KeyRegexShape("-");
    TaskKeyRegexShape("-");
    KeyRegexShape("=x");
    TaskKeyRegexShape("=x");
  }

  /** A leading `.` is not a version; a later one is. */
  lemma VersionDots()
    ensures !Accepts(VersionRegex, ".1") && Accepts(VersionRegex, "v1.0")
  {
    VersionRegexShape(".1");
    VersionRegexShape("v1.0");
  }

  lemma EmptyRejected()
    ensures !Accepts(RootRegex, "") && !Accepts(KeyRegex, "") && !Accepts(VersionRegex, "")
    ensures !Accepts(TaskKeyRegex, "") && !Accepts(UploadVersionRegex, "")
  {
    RootRegexShape("");
    KeyRegexShape("");
    VersionRegexShape("");
    TaskKeyRegexShape("");
    UploadVersionRegexShape("");
  }
}
