/** The parts of Go's standard library that the bot's string handling rests
    on: `unicode.IsSpace`, the `strings` functions `Fields`, `TrimSpace`,
    `HasPrefix`, `TrimPrefix`, `Index`, `Contains` and `ReplaceAll` (with an
    empty replacement), `strconv.Atoi` on a 64-bit platform, and the decimal
    rendering of `fmt`'s `%d` verb. Strings are sequences of Unicode scalar
    values, which is what Go's rune-decoding functions see on valid UTF-8. */
module GoText {
  import opened Wrappers

  // ---------------------------------------------------------------------------
  // White space

  /** `unicode.IsSpace`: the characters with the Unicode White_Space property. */
  predicate IsSpace(c: char) {
    || ('\U{0009}' <= c <= '\U{000D}')
    || c == ' '
    || c == '\U{0085}'
    || c == '\U{00A0}'
    || c == '\U{1680}'
    || ('\U{2000}' <= c <= '\U{200A}')
    || c == '\U{2028}'
    || c == '\U{2029}'
    || c == '\U{202F}'
    || c == '\U{205F}'
    || c == '\U{3000}'
  }

  predicate NoSpace(s: string) {
    forall i :: 0 <= i < |s| ==> !IsSpace(s[i])
  }

  predicate AllSpace(s: string) {
    forall i :: 0 <= i < |s| ==> IsSpace(s[i])
  }

  // ---------------------------------------------------------------------------
  // Prefixes and substrings

  /** `strings.HasPrefix` */
  predicate HasPrefix(s: string, prefix: string) {
    |prefix| <= |s| && s[..|prefix|] == prefix
  }

  lemma PrefixOfConcat(a: string, b: string)
    ensures HasPrefix(a + b, a)
  {
    assert (a + b)[..|a|] == a;
  }

  lemma PrefixOfPrefix(s: string, a: string, b: string)
    requires HasPrefix(s, a + b)
    ensures HasPrefix(s, a)
  {
    assert s[..|a|] == (a + b)[..|a|];
  }

  lemma PrefixLead(s: string, p: string)
    requires HasPrefix(s, p) && |p| > 0
    ensures s[0] == p[0]
  {
    assert s[..|p|][0] == s[0];
  }

  /** `strings.TrimPrefix`: drops `prefix` once when `s` starts with it. */
  function TrimPrefix(s: string, prefix: string): (r: string)
    ensures HasPrefix(s, prefix) ==> s == prefix + r
    ensures !HasPrefix(s, prefix) ==> r == s
  {
    if HasPrefix(s, prefix) then s[|prefix|..] else s
  }

  /** `strings.Index`: the first position at which `sub` occurs in `s`, or -1. */
  function Index(s: string, sub: string): (r: int)
    ensures -1 <= r <= |s|
    ensures 0 <= r ==> HasPrefix(s[r..], sub)
    ensures 0 <= r ==> forall k :: 0 <= k < r ==> !HasPrefix(s[k..], sub)
    ensures r == -1 <==> forall k :: 0 <= k <= |s| ==> !HasPrefix(s[k..], sub)
    decreases |s|
  {
    if HasPrefix(s, sub) then 0
    else if |s| == 0 then -1
    else
      var r := Index(s[1..], sub);
      assert forall k :: 1 <= k <= |s| ==> s[1..][k - 1..] == s[k..];
      if r < 0 then -1 else r + 1
  }

  /** `sub` is the slice of `s` that starts at position `k`. */
  predicate OccursAt(s: string, sub: string, k: int) {
    0 <= k <= |s| - |sub| && s[k..k + |sub|] == sub
  }

  /** `strings.Contains`: `sub` occurs somewhere in `s`. Go computes it as
      `Index(s, sub) >= 0`; `ContainsIffIndex` shows the two agree. */
  predicate Contains(s: string, sub: string) {
    exists k | 0 <= k <= |s| - |sub| :: OccursAt(s, sub, k)
  }

  lemma PrefixOfSuffix(s: string, sub: string, k: int)
    requires 0 <= k <= |s|
    ensures HasPrefix(s[k..], sub) <==> OccursAt(s, sub, k)
  {
    if k + |sub| <= |s| {
      assert s[k..][..|sub|] == s[k..k + |sub|];
    }
  }

  lemma ContainsIffIndex(s: string, sub: string)
    ensures Contains(s, sub) <==> Index(s, sub) >= 0
  {
    var r := Index(s, sub);
    if r >= 0 {
      PrefixOfSuffix(s, sub, r);
    } else {
      forall k | 0 <= k <= |s| - |sub|
        ensures !OccursAt(s, sub, k)
      {
        PrefixOfSuffix(s, sub, k);
      }
    }
  }

  lemma OccursInLeft(x: string, y: string, t: string, k: int)
    requires OccursAt(x, t, k)
    ensures OccursAt(x + y, t, k)
  {
    assert (x + y)[k..k + |t|] == x[k..k + |t|];
  }

  lemma OccursInRight(x: string, y: string, t: string, k: int)
    requires OccursAt(y, t, k)
    ensures OccursAt(x + y, t, |x| + k)
  {
    assert (x + y)[|x| + k..|x| + k + |t|] == y[k..k + |t|];
  }

  /** A piece written between two others is contained in the whole. */
  lemma ContainsPiece(a: string, t: string, b: string)
    ensures OccursAt(a + t + b, t, |a|)
    ensures Contains(a + t + b, t)
  {
    assert (a + t + b)[|a|..|a| + |t|] == t;
    assert OccursAt(a + t + b, t, |a|);
  }

  lemma ContainsSelf(t: string)
    ensures Contains(t, t)
  {
    assert OccursAt(t, t, 0);
  }

  lemma ContainsInLeft(x: string, y: string, t: string)
    requires Contains(x, t)
    ensures Contains(x + y, t)
  {
    var k :| 0 <= k <= |x| - |t| && OccursAt(x, t, k);
    OccursInLeft(x, y, t, k);
  }

  lemma ContainsInRight(x: string, y: string, t: string)
    requires Contains(y, t)
    ensures Contains(x + y, t)
  {
    var k :| 0 <= k <= |y| - |t| && OccursAt(y, t, k);
    OccursInRight(x, y, t, k);
  }

  lemma SpaceAtJoinPoint(x: string, y: string, t: string, k: int)
    requires OccursAt(x + " " + y, t, k)
    ensures k <= |x| < k + |t| ==> t[|x| - k] == ' '
  {
    var s := x + " " + y;
    if k <= |x| < k + |t| {
      assert t[|x| - k] == s[k..k + |t|][|x| - k] == s[|x|];
    }
  }

  /** An occurrence of a whitespace-free text in `x + " " + y` lies wholly
      inside `x` or wholly inside `y`. */
  lemma OccursInSpaceJoin(x: string, y: string, t: string, k: int)
    requires |t| > 0 && NoSpace(t)
    requires OccursAt(x + " " + y, t, k)
    ensures OccursAt(x, t, k) || OccursAt(y, t, k - |x| - 1)
  {
    var s := x + " " + y;
    SpaceAtJoinPoint(x, y, t, k);
    if k + |t| <= |x| {
      assert s[k..k + |t|] == x[k..k + |t|];
    } else if k > |x| {
      assert s[k..k + |t|] == y[k - |x| - 1..k - |x| - 1 + |t|];
    }
  }

  /** Searching two words joined by a space for a whitespace-free text is
      searching each word. */
  lemma ContainsInSpaceJoin(x: string, y: string, t: string)
    requires |t| > 0 && NoSpace(t)
    ensures Contains(x + " " + y, t) <==> Contains(x, t) || Contains(y, t)
  {
    if Contains(x + " " + y, t) {
      var k :| OccursAt(x + " " + y, t, k);
      OccursInSpaceJoin(x, y, t, k);
    }
    if Contains(x, t) {
      var k :| OccursAt(x, t, k);
      OccursInLeft(x, " " + y, t, k);
      assert x + (" " + y) == x + " " + y;
    }
    if Contains(y, t) {
      var k :| OccursAt(y, t, k);
      OccursInRight(x + " ", y, t, k);
    }
  }

  // ---------------------------------------------------------------------------
  // strings.Fields

  /** Length of the run of non-space characters at the front of `s`. */
  function TokenLength(s: string): (n: nat)
    ensures n <= |s|
    ensures NoSpace(s[..n])
    ensures n < |s| ==> IsSpace(s[n])
  {
    if |s| == 0 || IsSpace(s[0]) then 0
    else
      var n := 1 + TokenLength(s[1..]);
      assert s[..n] == [s[0]] + s[1..][..n - 1];
      n
  }

  /** `strings.Fields`: the maximal runs of non-space characters, in order. */
  function Fields(s: string): (r: seq<string>)
    ensures forall i :: 0 <= i < |r| ==> |r[i]| > 0 && NoSpace(r[i])
    decreases |s|
  {
    if |s| == 0 then []
    else if IsSpace(s[0]) then Fields(s[1..])
    else
      var n := TokenLength(s);
      [s[..n]] + Fields(s[n..])
  }

  /** The non-space characters of `s`, in order. */
  function NonSpace(s: string): string {
    if |s| == 0 then ""
    else if IsSpace(s[0]) then NonSpace(s[1..])
    else [s[0]] + NonSpace(s[1..])
  }

  function Concat(ts: seq<string>): string {
    if |ts| == 0 then "" else ts[0] + Concat(ts[1..])
  }

  /** Tokens joined with one space between neighbours. */
  function JoinWithSpace(ts: seq<string>): string {
    if |ts| == 0 then ""
    else if |ts| == 1 then ts[0]
    else ts[0] + " " + JoinWithSpace(ts[1..])
  }

  lemma {:induction false} NonSpaceOfToken(t: string)
    requires NoSpace(t)
    ensures NonSpace(t) == t
    decreases |t|
  {
    if |t| > 0 {
      NonSpaceOfToken(t[1..]);
      assert t == [t[0]] + t[1..];
    }
  }

  lemma {:induction false} NonSpaceAppend(a: string, b: string)
    ensures NonSpace(a + b) == NonSpace(a) + NonSpace(b)
    decreases |a|
  {
    if |a| > 0 {
      assert (a + b)[1..] == a[1..] + b;
      NonSpaceAppend(a[1..], b);
    } else {
      assert a + b == b;
    }
  }

  /** Fields drops exactly the white space: no other character is lost,
      added or reordered. */
  lemma {:induction false} FieldsKeepNonSpace(s: string)
    ensures Concat(Fields(s)) == NonSpace(s)
    decreases |s|
  {
    if |s| > 0 {
      if IsSpace(s[0]) {
        FieldsKeepNonSpace(s[1..]);
      } else {
        var n := TokenLength(s);
        assert s == s[..n] + s[n..];
        FieldsKeepNonSpace(s[n..]);
        NonSpaceAppend(s[..n], s[n..]);
        NonSpaceOfToken(s[..n]);
        assert Fields(s)[1..] == Fields(s[n..]);
      }
    }
  }

  lemma {:induction false} TokenLengthOf(t: string, s: string)
    requires NoSpace(t)
    requires |s| == 0 || IsSpace(s[0])
    ensures TokenLength(t + s) == |t|
    decreases |t|
  {
    if |t| == 0 {
      assert t + s == s;
    } else {
      assert (t + s)[1..] == t[1..] + s;
      TokenLengthOf(t[1..], s);
    }
  }

  /** A token followed by white space (or by nothing) is the first field. */
  lemma FieldsOfTokenThen(t: string, s: string)
    requires |t| > 0 && NoSpace(t)
    requires |s| == 0 || IsSpace(s[0])
    ensures Fields(t + s) == [t] + Fields(s)
  {
    TokenLengthOf(t, s);
    assert (t + s)[..|t|] == t;
    assert (t + s)[|t|..] == s;
  }

  /** Leading white space never changes the fields. */
  lemma FieldsAfterSpace(c: char, s: string)
    requires IsSpace(c)
    ensures Fields([c] + s) == Fields(s)
  {
    assert ([c] + s)[1..] == s;
  }

  /** A token followed by a space is the first field. */
  lemma FieldsOfTokenSpace(t: string, s: string)
    requires |t| > 0 && NoSpace(t)
    ensures Fields(t + " " + s) == [t] + Fields(s)
  {
    assert t + " " + s == t + (" " + s);
    FieldsOfTokenThen(t, " " + s);
    assert " " + s == [' '] + s;
    FieldsAfterSpace(' ', s);
  }

  /** Two tokens separated by a space, with or without a space in front,
      are exactly two fields. */
  lemma FieldsOfSpacedPair(a: string, b: string)
    requires |a| > 0 && NoSpace(a) && |b| > 0 && NoSpace(b)
    ensures Fields(a + " " + b) == [a, b]
    ensures Fields(" " + a + " " + b) == [a, b]
  {
    FieldsOfTokenSpace(a, b);
    FieldsOfTokenThen(b, "");
    assert b + "" == b;
    assert " " + a + " " + b == [' '] + (a + " " + b);
    FieldsAfterSpace(' ', a + " " + b);
  }

  /** Associativity of concatenation, called where a proof regroups a long
      concatenation: naming the one step keeps the solver from searching
      for it in a large context. */
  lemma SeqAssoc<T>(a: seq<T>, b: seq<T>, c: seq<T>)
    ensures a + (b + c) == a + b + c
  {
  }

  /** Printable ASCII characters other than the space are not white space. */
  lemma VisibleAsciiNoSpace(s: string)
    requires forall i :: 0 <= i < |s| ==> '!' <= s[i] <= '~'
    ensures NoSpace(s)
  {
  }

  /** Four words joined with single spaces. */
  lemma JoinFour(a: string, b: string, c: string, d: string)
    ensures JoinWithSpace([a, b, c, d]) == a + " " + b + " " + c + " " + d
  {
    var ws := [a, b, c, d];
    assert ws[1..] == [b, c, d] && ws[2..] == [c, d] && ws[3..] == [d];
    assert JoinWithSpace([c, d]) == c + " " + d;
    assert JoinWithSpace([b, c, d]) == b + " " + (c + " " + d);
    SeqAssoc(b + " ", c + " ", d);
    SeqAssoc(b + " ", c, " ");
    assert JoinWithSpace(ws) == a + " " + (b + " " + c + " " + d);
    SeqAssoc(a + " ", b + " " + c + " ", d);
    SeqAssoc(a + " ", b + " " + c, " ");
    SeqAssoc(a + " ", b + " ", c);
    SeqAssoc(a + " ", b, " ");
  }

  /** `Fields` inverts joining with single spaces: the tokens come back
      exactly, whatever they are, provided they are tokens. */
  lemma {:induction false} FieldsOfJoin(ts: seq<string>)
    requires forall i :: 0 <= i < |ts| ==> |ts[i]| > 0 && NoSpace(ts[i])
    ensures Fields(JoinWithSpace(ts)) == ts
    decreases |ts|
  {
    if |ts| == 1 {
      FieldsOfTokenThen(ts[0], "");
      assert ts[0] + "" == ts[0];
    } else if |ts| > 1 {
      var rest := JoinWithSpace(ts[1..]);
      assert JoinWithSpace(ts) == ts[0] + (" " + rest);
      FieldsOfTokenThen(ts[0], " " + rest);
      FieldsAfterSpace(' ', rest);
      FieldsOfJoin(ts[1..]);
      assert ts == [ts[0]] + ts[1..];
    }
  }

  /** Joined tokens followed by a space and any text: the tokens come first,
      then the fields of the text. */
  lemma {:induction false} FieldsOfJoinThen(ts: seq<string>, s: string)
    requires |ts| > 0
    requires forall i :: 0 <= i < |ts| ==> |ts[i]| > 0 && NoSpace(ts[i])
    ensures Fields(JoinWithSpace(ts) + " " + s) == ts + Fields(s)
    decreases |ts|
  {
    if |ts| == 1 {
      FieldsOfTokenSpace(ts[0], s);
    } else {
      var rest := JoinWithSpace(ts[1..]);
      var tail := rest + " " + s;
      var head := ts[0] + " ";
      assert JoinWithSpace(ts) == head + rest;
      SeqAssoc(head, rest, " ");
      SeqAssoc(head, rest + " ", s);
      FieldsOfTokenSpace(ts[0], tail);
      FieldsOfJoinThen(ts[1..], s);
      assert JoinWithSpace(ts) + " " + s == ts[0] + " " + tail;
      assert Fields(JoinWithSpace(ts) + " " + s) == [ts[0]] + (ts[1..] + Fields(s));
      SeqAssoc([ts[0]], ts[1..], Fields(s));
      assert ts == [ts[0]] + ts[1..];
    }
  }

  /** A string has no fields exactly when it is all white space. */
  lemma {:induction false} FieldsEmptyIffAllSpace(s: string)
    ensures Fields(s) == [] <==> AllSpace(s)
    decreases |s|
  {
    if |s| > 0 {
      FieldsEmptyIffAllSpace(s[1..]);
      if IsSpace(s[0]) {
        assert AllSpace(s) <==> AllSpace(s[1..]) by {
          assert forall i :: 1 <= i < |s| ==> s[i] == s[1..][i - 1];
        }
      }
    }
  }

  // ---------------------------------------------------------------------------
  // strings.TrimSpace

  /** The first position at or after `i` that does not hold white space,
      or `|s|` if there is none: Go's scan from the front. */
  function TrimStart(s: string, i: nat): (b: nat)
    requires i <= |s|
    ensures i <= b <= |s|
    ensures forall k :: i <= k < b ==> IsSpace(s[k])
    ensures b < |s| ==> !IsSpace(s[b])
    decreases |s| - i
  {
    if i < |s| && IsSpace(s[i]) then TrimStart(s, i + 1) else i
  }

  /** The end of `s[i..j]` once its trailing white space is cut: Go's scan
      from the back, which stops at `i`. */
  function TrimEnd(s: string, i: nat, j: nat): (e: nat)
    requires i <= j <= |s|
    ensures i <= e <= j
    ensures forall k :: e <= k < j ==> IsSpace(s[k])
    ensures i < e ==> !IsSpace(s[e - 1])
    decreases j
  {
    if i < j && IsSpace(s[j - 1]) then TrimEnd(s, i, j - 1) else j
  }

  /** `s[i..j]` is what is left of `s` once its leading and trailing white
      space is cut away. */
  predicate TrimmedAt(s: string, i: int, j: int) {
    && 0 <= i <= j <= |s|
    && (forall k :: 0 <= k < i ==> IsSpace(s[k]))
    && (forall k :: j <= k < |s| ==> IsSpace(s[k]))
    && (i < j ==> !IsSpace(s[i]) && !IsSpace(s[j - 1]))
  }

  /** `strings.TrimSpace` */
  function TrimSpace(s: string): (r: string)
    ensures exists i, j :: TrimmedAt(s, i, j) && r == s[i..j]
    ensures |r| > 0 ==> !IsSpace(r[0]) && !IsSpace(r[|r| - 1])
  {
    var i := TrimStart(s, 0);
    var j := TrimEnd(s, i, |s|);
    assert TrimmedAt(s, i, j);
    s[i..j]
  }

  /** The trimming is determined by `s`: any cut that leaves no white space
      at either end gives the result of `TrimSpace`. */
  lemma TrimmedAtUnique(s: string, i: int, j: int, i': int, j': int)
    requires TrimmedAt(s, i, j) && TrimmedAt(s, i', j')
    ensures s[i..j] == s[i'..j']
  {
    if i < j && i' < j' {
      assert i == i' && j == j';
    }
  }

  lemma TrimSpaceCharacterized(s: string, i: int, j: int)
    requires TrimmedAt(s, i, j)
    ensures TrimSpace(s) == s[i..j]
  {
    var r := TrimSpace(s);
    var i', j' :| TrimmedAt(s, i', j') && r == s[i'..j'];
    TrimmedAtUnique(s, i, j, i', j');
  }

  /** Trimming twice is trimming once. */
  lemma TrimSpaceIdempotent(s: string)
    ensures TrimSpace(TrimSpace(s)) == TrimSpace(s)
  {
    var r := TrimSpace(s);
    TrimSpaceCharacterized(r, 0, |r|);
  }

  /** White space appended to a string is trimmed away with the rest. */
  lemma TrimmedAtWithTrailing(s: string, tail: string, i: int, j: int)
    requires AllSpace(tail)
    requires TrimmedAt(s, i, j)
    ensures TrimmedAt(s + tail, i, j)
  {
    var u := s + tail;
    forall k | 0 <= k < i
      ensures IsSpace(u[k])
    {
      assert u[k] == s[k];
    }
    forall k | j <= k < |u|
      ensures IsSpace(u[k])
    {
      if k < |s| {
        assert u[k] == s[k];
      } else {
        assert u[k] == tail[k - |s|];
      }
    }
    if i < j {
      assert u[i] == s[i] && u[j - 1] == s[j - 1];
    }
  }

  lemma SliceOfAppend(s: string, tail: string, i: int, j: int)
    requires 0 <= i <= j <= |s|
    ensures (s + tail)[i..j] == s[i..j]
  {
  }

  lemma TrimSpaceIgnoresTrailing(s: string, tail: string)
    requires AllSpace(tail)
    ensures TrimSpace(s + tail) == TrimSpace(s)
  {
    var r := TrimSpace(s);
    var i, j :| TrimmedAt(s, i, j) && r == s[i..j];
    TrimmedAtWithTrailing(s, tail, i, j);
    TrimSpaceCharacterized(s + tail, i, j);
    SliceOfAppend(s, tail, i, j);
  }



  // ---------------------------------------------------------------------------
  // strings.ReplaceAll with an empty replacement

  /** `strings.ReplaceAll(s, pat, "")`: scanning left to right, every
      non-overlapping occurrence of `pat` is cut out. An empty `pat` leaves
      `s` unchanged, as Go's `Replace` does when `pat == new`. */
  function RemoveAll(s: string, pat: string): (r: string)
    ensures |r| <= |s|
    ensures |r| == |s| <==> |pat| == 0 || !Contains(s, pat)
    ensures !Contains(s, pat) ==> r == s
    ensures |pat| == 0 ==> r == s
    decreases |s|
  {
    if |pat| == 0 then s
    else
      ContainsIffIndex(s, pat);
      var i := Index(s, pat);
      if i < 0 then s else s[..i] + RemoveAll(s[i + |pat|..], pat)
  }

  /** An occurrence of `pat` that starts inside `a` ends before the last
      character of the `pat` written after it, so it lies within
      `a + pat[..|pat| - 1]`. */
  lemma OccurrenceBeforeMarker(a: string, pat: string, b: string, k: int)
    requires |pat| > 0 && 0 <= k < |a|
    ensures OccursAt(a + pat + b, pat, k) ==> OccursAt(a + pat[..|pat| - 1], pat, k)
  {
    var s := a + pat + b;
    var t := a + pat[..|pat| - 1];
    if k + |pat| <= |s| {
      assert forall m :: 0 <= m < |t| ==> t[m] == s[m];
      assert k + |pat| <= |t|;
      assert t[k..k + |pat|] == s[k..k + |pat|];
    }
  }

  /** When no occurrence of `pat` starts in `a`, not even one that runs into
      the `pat` written after it, the first occurrence in `a + pat + b` is the
      one right after `a`. */
  lemma IndexAfterFreePrefix(a: string, pat: string, b: string)
    requires |pat| > 0
    requires !Contains(a + pat[..|pat| - 1], pat)
    ensures Index(a + pat + b, pat) == |a|
  {
    var s := a + pat + b;
    assert s[|a|..|a| + |pat|] == pat;
    PrefixOfSuffix(s, pat, |a|);
    forall k | 0 <= k < |a|
      ensures !HasPrefix(s[k..], pat)
    {
      PrefixOfSuffix(s, pat, k);
      OccurrenceBeforeMarker(a, pat, b, k);
    }
  }

  /** Go's `Replace` scans left to right for non-overlapping occurrences:
      when no occurrence starts in `a`, cutting `pat` out of `a + pat + b`
      keeps `a`, drops that `pat`, and goes on with `b`. */
  lemma RemoveAllAfterFreePrefix(a: string, pat: string, b: string)
    requires |pat| > 0
    requires !Contains(a + pat[..|pat| - 1], pat)
    ensures RemoveAll(a + pat + b, pat) == a + RemoveAll(b, pat)
  {
    var s := a + pat + b;
    IndexAfterFreePrefix(a, pat, b);
    assert s[..|a|] == a;
    assert s[|a| + |pat|..] == b;
  }

  /** A text in which the first character of `pat` never occurs cannot hold
      the start of an occurrence. */
  lemma ClearPrefixIsFree(a: string, pat: string)
    requires |pat| > 0
    requires forall k :: 0 <= k < |a| ==> a[k] != pat[0]
    ensures !Contains(a + pat[..|pat| - 1], pat)
  {
    var t := a + pat[..|pat| - 1];
    forall k | 0 <= k <= |t| - |pat|
      ensures !OccursAt(t, pat, k)
    {
      assert t[k..k + |pat|][0] == a[k];
    }
  }

  /** The case the name clean-up meets: the text before the marker holds
      no character that starts the marker. */
  lemma RemoveAllAfterClearPrefix(a: string, pat: string, b: string)
    requires |pat| > 0
    requires forall k :: 0 <= k < |a| ==> a[k] != pat[0]
    ensures RemoveAll(a + pat + b, pat) == a + RemoveAll(b, pat)
  {
    ClearPrefixIsFree(a, pat);
    RemoveAllAfterFreePrefix(a, pat, b);
  }

  // ---------------------------------------------------------------------------
  // strconv.Atoi and %d

  const MaxInt64: int := 0x7FFF_FFFF_FFFF_FFFF
  const MinInt64: int := -0x8000_0000_0000_0000

  predicate IsDigit(c: char) {
    '0' <= c <= '9'
  }

  predicate AllDigits(s: string) {
    forall i :: 0 <= i < |s| ==> IsDigit(s[i])
  }

  function DigitValue(c: char): nat
    requires IsDigit(c)
  {
    c as int - '0' as int
  }

  function DigitChar(d: nat): (c: char)
    requires d < 10
    ensures IsDigit(c) && DigitValue(c) == d
  {
    ('0' as int + d) as char
  }

  /** The number a string of decimal digits denotes. */
  function DecimalValue(s: string): nat
    requires AllDigits(s)
  {
    if |s| == 0 then 0 else 10 * DecimalValue(s[..|s| - 1]) + DigitValue(s[|s| - 1])
  }

  /** `strconv.Atoi` with Go's 64-bit `int`: an optional sign, then one or
      more ASCII digits (no underscores, no base prefix, no white space),
      denoting a value that fits in 64 bits. Any other input is an error,
      rendered as `None`. */
  function Atoi(s: string): (r: Option<int>)
    ensures r.Some? ==> MinInt64 <= r.value <= MaxInt64
    ensures r.Some? ==> |s| > 0 && NoSpace(s)
  {
    if |s| == 0 then None
    else
      var digits := if s[0] == '+' || s[0] == '-' then s[1..] else s;
      assert forall i :: 0 < i < |s| ==> s[i] == if digits == s then digits[i] else digits[i - 1];
      if |digits| == 0 || !AllDigits(digits) then None
      else
        var d: int := DecimalValue(digits);
        var v := if s[0] == '-' then -d else d;
        if MinInt64 <= v <= MaxInt64 then Some(v) else None
  }

  /** Decimal digits of a natural number, most significant first, without
      leading zeros. */
  function NatToDecimal(n: nat): (r: string)
    ensures |r| > 0 && AllDigits(r)
    ensures r[0] == '0' <==> n == 0
    ensures r[0] == '0' ==> |r| == 1
  {
    if n < 10 then [DigitChar(n)] else NatToDecimal(n / 10) + [DigitChar(n % 10)]
  }

  /** `strconv.Itoa`, which is also what `fmt`'s `%d` verb prints for an int. */
  function Itoa(n: int): (r: string)
    ensures |r| > 0 && NoSpace(r)
    ensures 0 <= n <==> AllDigits(r)
    ensures r[0] == '0' <==> n == 0
    ensures r[0] == '0' ==> |r| == 1
    ensures n < 0 ==> r[0] == '-' && |r| > 1 && r[1] != '0'
  {
    if n < 0 then
      var r := "-" + NatToDecimal(-n);
      assert !IsDigit(r[0]);
      r
    else NatToDecimal(n)
  }

  lemma {:induction false} DecimalValueOfNat(n: nat)
    ensures DecimalValue(NatToDecimal(n)) == n
    decreases n
  {
    if n >= 10 {
      DecimalValueOfNat(n / 10);
      var r := NatToDecimal(n);
      assert r[..|r| - 1] == NatToDecimal(n / 10);
    }
  }

  /** `Atoi` reads back every 64-bit value `Itoa` writes. */
  lemma AtoiOfItoa(n: int)
    requires MinInt64 <= n <= MaxInt64
    ensures Atoi(Itoa(n)) == Some(n)
  {
    if n < 0 {
      AtoiOfNegative(-n);
    } else {
      DecimalValueOfNat(n);
      AtoiOfDigits(NatToDecimal(n));
    }
  }

  /** Digits alone read as their value, when it fits. */
  lemma AtoiOfDigits(d: string)
    requires |d| > 0 && AllDigits(d) && DecimalValue(d) <= MaxInt64
    ensures Atoi(d) == Some(DecimalValue(d))
  {
    assert IsDigit(d[0]);
  }

  /** A minus sign before the digits of `m` reads as `-m`, when it fits. */
  lemma AtoiOfNegative(m: int)
    requires 0 < m <= -MinInt64
    ensures Atoi("-" + NatToDecimal(m)) == Some(-m)
  {
    var s := "-" + NatToDecimal(m);
    DecimalValueOfNat(m);
    assert s[0] == '-' && s[1..] == NatToDecimal(m);
  }

  /** Leading zeros do not change the value of a digit string. */
  lemma {:induction false} DecimalValueLeadingZero(s: string)
    requires AllDigits(s)
    ensures AllDigits("0" + s) && DecimalValue("0" + s) == DecimalValue(s)
    decreases |s|
  {
    if |s| > 0 {
      var t := "0" + s;
      assert t[..|t| - 1] == "0" + s[..|s| - 1];
      DecimalValueLeadingZero(s[..|s| - 1]);
    }
  }

  /** A digit string denotes zero exactly when every digit is `0`. */
  lemma {:induction false} DecimalValueZero(s: string)
    requires AllDigits(s)
    ensures DecimalValue(s) == 0 <==> forall i :: 0 <= i < |s| ==> s[i] == '0'
    decreases |s|
  {
    if |s| > 0 {
      var p := s[..|s| - 1];
      DecimalValueZero(p);
      assert forall i :: 0 <= i < |p| ==> p[i] == s[i];
    }
  }

  // ---------------------------------------------------------------------------
  // Lines of text, for stating the shape of the info reply

  predicate NoNewline(s: string) {
    '\n' !in s
  }

  /** The lines of `s`, as Go's `strings.Split(s, "\n")` gives them; a
      string with k newlines has k + 1 lines. The bot never splits text:
      this is a tool for stating the line structure of the info reply. */
  function SplitLines(s: string): (r: seq<string>)
    ensures |r| > 0
  {
    if |s| == 0 then [""]
    else if s[0] == '\n' then [""] + SplitLines(s[1..])
    else
      var rest := SplitLines(s[1..]);
      [[s[0]] + rest[0]] + rest[1..]
  }

  lemma NoNewlineConcat(a: string, b: string)
    requires NoNewline(a) && NoNewline(b)
    ensures NoNewline(a + b)
  {
    assert forall i :: |a| <= i < |a + b| ==> (a + b)[i] == b[i - |a|];
  }

  /** Lines joined with a newline between neighbours. */
  function JoinLines(ls: seq<string>): string
    requires |ls| > 0
  {
    if |ls| == 1 then ls[0] else ls[0] + "\n" + JoinLines(ls[1..])
  }

  lemma JoinLinesCons(l: string, ls: seq<string>)
    requires |ls| > 0
    ensures JoinLines([l] + ls) == l + "\n" + JoinLines(ls)
  {
    assert ([l] + ls)[1..] == ls;
  }

  /** A string without newlines is a single line. */
  lemma {:induction false} SplitLinesSingle(a: string)
    requires NoNewline(a)
    ensures SplitLines(a) == [a]
    decreases |a|
  {
    if |a| > 0 {
      SplitLinesSingle(a[1..]);
      assert [a[0]] + a[1..] == a;
    }
  }

  /** A newline-free text followed by a newline is the first line. */
  lemma {:induction false} SplitLinesCons(a: string, b: string)
    requires NoNewline(a)
    ensures SplitLines(a + "\n" + b) == [a] + SplitLines(b)
    decreases |a|
  {
    var s := a + "\n" + b;
    if |a| == 0 {
      assert s == "\n" + b;
      assert s[1..] == b;
    } else {
      assert s[1..] == a[1..] + "\n" + b;
      SplitLinesCons(a[1..], b);
      assert [a[0]] + a[1..] == a;
    }
  }

  /** Splitting at newlines undoes joining with newlines, provided no line
      holds a newline of its own. */
  lemma {:induction false} SplitLinesOfJoin(ls: seq<string>)
    requires |ls| > 0
    requires forall i :: 0 <= i < |ls| ==> NoNewline(ls[i])
    ensures SplitLines(JoinLines(ls)) == ls
    decreases |ls|
  {
    if |ls| == 1 {
      SplitLinesSingle(ls[0]);
    } else {
      SplitLinesCons(ls[0], JoinLines(ls[1..]));
      SplitLinesOfJoin(ls[1..]);
      assert ls == [ls[0]] + ls[1..];
    }
  }
}
