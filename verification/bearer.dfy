/**
  Bearer-token extraction: `req.Headers["Authorization"].FirstOrDefault()?.Split(" ").Last()`.
  `String.Split` on a one-character separator keeps empty pieces, so the token is the text after
  the last space of the first header value, or that whole value when it holds no space.
*/
module Bearer {
  import opened Wrappers

  const SPACE: char := ' '

  /** `String.Join`: the pieces with one separator between neighbours. */
  function Join(parts: seq<string>, sep: char): string
    requires |parts| >= 1
  {
    if |parts| == 1 then parts[0] else parts[0] + [sep] + Join(parts[1..], sep)
  }

  /** `String.Split(sep)`: every occurrence of `sep` ends a piece; empty pieces are kept. */
  function Split(s: string, sep: char): (parts: seq<string>)
    ensures |parts| >= 1
    ensures forall i :: 0 <= i < |parts| ==> sep !in parts[i]
    ensures Join(parts, sep) == s
  {
    if s == [] then [""]
    else
      var rest := Split(s[1..], sep);
      if s[0] == sep then
        assert ([""] + rest)[1..] == rest;
        [""] + rest
      else
        var parts := [[s[0]] + rest[0]] + rest[1..];
        assert parts[1..] == rest[1..];
        assert s == [s[0]] + s[1..];
        parts
  }

  /** `Enumerable.Last`. */
  function Last(parts: seq<string>): string
    requires |parts| >= 1
  {
    parts[|parts| - 1]
  }

  /** `t` is the longest suffix of `s` without `sep`: it starts at `s`'s start or right after a `sep`. */
  ghost predicate IsLastSegment(t: string, s: string, sep: char)
  {
    && |t| <= |s|
    && t == s[|s| - |t|..]
    && sep !in t
    && (|t| == |s| || s[|s| - |t| - 1] == sep)
  }

  /** The bearer token of the `Authorization` header's values; `None` when the header is absent. */
  function ExtractToken(values: seq<string>): (token: Option<string>)
    ensures token.None? <==> values == []
    ensures token.Some? ==> IsLastSegment(token.value, values[0], SPACE)
    ensures token.Some? && SPACE !in values[0] ==> token.value == values[0]
  {
    if values == [] then None
    else
      var parts := Split(values[0], SPACE);
      LastOfJoin(parts, SPACE);
      Some(Last(parts))
  }

  /** The last piece of a join of separator-free pieces is the join's last segment. */
  lemma {:induction false} LastOfJoin(parts: seq<string>, sep: char)
    requires |parts| >= 1
    requires forall i :: 0 <= i < |parts| ==> sep !in parts[i]
    ensures IsLastSegment(Last(parts), Join(parts, sep), sep)
  {
    if |parts| > 1 {
      var tail := parts[1..];
      LastOfJoin(tail, sep);
      var s, j, t := Join(parts, sep), Join(tail, sep), Last(parts);
      assert Last(tail) == t;
      assert s == parts[0] + [sep] + j;
      var off := |parts[0]| + 1;
      assert s[off..] == j;
      assert s[|s| - |t|..] == j[|j| - |t|..];
      if |t| < |j| {
        assert s[|s| - |t| - 1] == j[|j| - |t| - 1];
      } else {
        assert s[|s| - |t| - 1] == s[off - 1];
      }
    }
  }

  /** A separator-free prefix joins the first piece of what follows it. */
  lemma {:induction false} SplitAfterPiece(a: string, t: string, sep: char)
    requires sep !in a
    ensures Split(a + t, sep) == [a + Split(t, sep)[0]] + Split(t, sep)[1..]
  {
    var parts := Split(t, sep);
    if a == [] {
      assert a + t == t && a + parts[0] == parts[0];
      assert [parts[0]] + parts[1..] == parts;
    } else {
      var s := a + t;
      assert s[0] == a[0] && s[1..] == a[1..] + t;
      SplitAfterPiece(a[1..], t, sep);
      var rest := Split(s[1..], sep);
      assert rest[0] == a[1..] + parts[0] && rest[1..] == parts[1..];
      assert Split(s, sep) == [[s[0]] + rest[0]] + rest[1..];
      assert [a[0]] + (a[1..] + parts[0]) == a + parts[0];
    }
  }

  /** Splitting undoes joining, for pieces that do not contain the separator. */
  lemma {:induction false} SplitJoin(parts: seq<string>, sep: char)
    requires |parts| >= 1
    requires forall i :: 0 <= i < |parts| ==> sep !in parts[i]
    ensures Split(Join(parts, sep), sep) == parts
  {
    var a := parts[0];
    if |parts| == 1 {
      SplitAfterPiece(a, [], sep);
      assert a + [] == a;
    } else {
      var tail := parts[1..];
      SplitJoin(tail, sep);
      var t := [sep] + Join(tail, sep);
      assert Join(parts, sep) == a + t;
      assert t[1..] == Join(tail, sep);
      assert Split(t, sep) == [""] + tail;
      SplitAfterPiece(a, t, sep);
      assert a + "" == a;
    }
  }

  /** The usual header shape: the scheme, one space, the token. */
  lemma SchemeAndToken(scheme: string, token: string)
    requires SPACE !in scheme && SPACE !in token
    ensures ExtractToken([scheme + [SPACE] + token]) == Some(token)
  {
    SplitJoin([scheme, token], SPACE);
    assert Join([scheme, token], SPACE) == scheme + [SPACE] + token;
  }
}
