/** The trend page's name box: comma-separated text split on every comma,
    each piece stripped of surrounding whitespace, empty pieces kept. */
module NameInput {

  /** How many times c occurs in s. */
  function Occurrences(s: string, c: char): nat {
    if |s| == 0 then 0 else (if s[0] == c then 1 else 0) + Occurrences(s[1..], c)
  }

  /** Python's str.split(sep) with an explicit one-character separator: the
      maximal separator-free pieces, one more than there are separators. */
  function Split(s: string, sep: char): (parts: seq<string>)
    ensures |parts| == Occurrences(s, sep) + 1
    ensures forall k :: 0 <= k < |parts| ==> sep !in parts[k]
    decreases |s|
  {
    if |s| == 0 then [""]
    else
      var rest := Split(s[1..], sep);
      if s[0] == sep then [""] + rest
      else [[s[0]] + rest[0]] + rest[1..]
  }

  /** The pieces glued back together with sep between neighbours. */
  function Join(parts: seq<string>, sep: char): string
    decreases |parts|
  {
    if |parts| == 0 then ""
    else if |parts| == 1 then parts[0]
    else parts[0] + [sep] + Join(parts[1..], sep)
  }

  lemma JoinCons(c: char, p: string, tail: seq<string>, sep: char)
    ensures Join([[c] + p] + tail, sep) == [c] + Join([p] + tail, sep)
  {
  }

  /** Splitting loses nothing: the pieces join back to the input. */
  lemma {:induction false} JoinSplit(s: string, sep: char)
    ensures Join(Split(s, sep), sep) == s
    decreases |s|
  {
    if |s| > 0 {
      var rest := Split(s[1..], sep);
      JoinSplit(s[1..], sep);
      if s[0] == sep {
        assert ([""] + rest)[1..] == rest;
        assert s == [s[0]] + s[1..];
      } else {
        assert rest == [rest[0]] + rest[1..];
        JoinCons(s[0], rest[0], rest[1..], sep);
        assert s == [s[0]] + s[1..];
      }
    }
  }

  /** A separator-free piece followed by a separator splits off as one piece. */
  lemma {:induction false} SplitAfterPiece(p: string, t: string, sep: char)
    requires sep !in p
    ensures Split(p + [sep] + t, sep) == [p] + Split(t, sep)
    decreases |p|
  {
    if |p| == 0 {
      assert p + [sep] + t == [sep] + t;
      assert ([sep] + t)[1..] == t;
    } else {
      var s := p + [sep] + t;
      assert s[1..] == p[1..] + [sep] + t;
      SplitAfterPiece(p[1..], t, sep);
      assert [p[0]] + p[1..] == p;
    }
  }

  lemma {:induction false} SplitPiece(p: string, sep: char)
    requires sep !in p
    ensures Split(p, sep) == [p]
    decreases |p|
  {
    if |p| > 0 {
      SplitPiece(p[1..], sep);
      assert [p[0]] + p[1..] == p;
    }
  }

  /** Joining loses nothing either: separator-free pieces split back out. */
  lemma {:induction false} SplitJoin(parts: seq<string>, sep: char)
    requires |parts| > 0
    requires forall k :: 0 <= k < |parts| ==> sep !in parts[k]
    ensures Split(Join(parts, sep), sep) == parts
    decreases |parts|
  {
    if |parts| == 1 {
      SplitPiece(parts[0], sep);
    } else {
      SplitJoin(parts[1..], sep);
      SplitAfterPiece(parts[0], Join(parts[1..], sep), sep);
      assert [parts[0]] + parts[1..] == parts;
    }
  }

  /** The characters Python's str.isspace accepts, which str.strip() removes. */
  predicate IsSpace(c: char) {
    || ('\t' <= c <= '\r')
    || ('\U{1C}' <= c <= '\U{1F}')
    || c == ' ' || c == '\U{85}' || c == '\U{A0}' || c == '\U{1680}'
    || ('\U{2000}' <= c <= '\U{200A}')
    || c == '\U{2028}' || c == '\U{2029}' || c == '\U{202F}' || c == '\U{205F}' || c == '\U{3000}'
  }

  predicate AllSpace(s: string) {
    forall k :: 0 <= k < |s| ==> IsSpace(s[k])
  }

  /** s neither starts nor ends with whitespace. */
  predicate Trimmed(s: string) {
    |s| == 0 || (!IsSpace(s[0]) && !IsSpace(s[|s| - 1]))
  }

  /** s without its leading whitespace. */
  function StripLeading(s: string): (r: string)
    ensures |r| <= |s| && r == s[|s| - |r|..] && AllSpace(s[..|s| - |r|])
    ensures |r| > 0 ==> !IsSpace(r[0])
    decreases |s|
  {
    if |s| > 0 && IsSpace(s[0]) then StripLeading(s[1..]) else s
  }

  /** s without its trailing whitespace. */
  function StripTrailing(s: string): (r: string)
    ensures |r| <= |s| && r == s[..|r|] && AllSpace(s[|r|..])
    ensures |r| > 0 ==> !IsSpace(r[|r| - 1])
    decreases |s|
  {
    if |s| > 0 && IsSpace(s[|s| - 1]) then StripTrailing(s[..|s| - 1]) else s
  }

  /** r is s with only whitespace cut from its front and its back. */
  ghost predicate CutFrom(r: string, s: string) {
    exists i :: 0 <= i <= |s| - |r| && r == s[i..i + |r|]
                && AllSpace(s[..i]) && AllSpace(s[i + |r|..])
  }

  lemma CutAt(r: string, s: string, i: int)
    requires 0 <= i <= |s| - |r| && r == s[i..i + |r|]
    requires AllSpace(s[..i]) && AllSpace(s[i + |r|..])
    ensures CutFrom(r, s)
    ensures forall c :: c in r ==> c in s
  {
    forall c | c in r
      ensures c in s
    {
      var k :| 0 <= k < |r| && r[k] == c;
      assert s[i + k] == c;
    }
  }

  /** Python's str.strip(): s without surrounding whitespace, which is a
      contiguous slice of s. */
  function Strip(s: string): (r: string)
    ensures Trimmed(r)
    ensures |r| <= |s|
    ensures forall c :: c in r ==> c in s
    ensures CutFrom(r, s)
  {
    var t := StripLeading(s);
    var u := StripTrailing(t);
    var i := |s| - |t|;
    assert s[i..i + |u|] == u by {
      assert t == s[i..];
    }
    assert s[i + |u|..] == t[|u|..];
    CutAt(u, s, i);
    u
  }

  lemma {:induction false} StripLeadingSpaces(a: string, y: string)
    requires AllSpace(a)
    requires |y| == 0 || !IsSpace(y[0])
    ensures StripLeading(a + y) == y
    decreases |a|
  {
    if |a| > 0 {
      assert (a + y)[1..] == a[1..] + y;
      StripLeadingSpaces(a[1..], y);
    } else {
      assert a + y == y;
    }
  }

  lemma {:induction false} StripTrailingSpaces(y: string, b: string)
    requires AllSpace(b)
    requires |y| == 0 || !IsSpace(y[|y| - 1])
    ensures StripTrailing(y + b) == y
    decreases |b|
  {
    if |b| > 0 {
      assert (y + b)[..|y + b| - 1] == y + b[..|b| - 1];
      StripTrailingSpaces(y, b[..|b| - 1]);
    } else {
      assert y + b == y;
    }
  }

  /** Stripping removes exactly the surrounding whitespace: a trimmed text
      padded with whitespace on either side strips back to itself. */
  lemma StripPadded(a: string, x: string, b: string)
    requires AllSpace(a) && AllSpace(b) && Trimmed(x)
    ensures Strip(a + x + b) == x
  {
    if |x| > 0 {
      assert a + x + b == a + (x + b);
      StripLeadingSpaces(a, x + b);
      StripTrailingSpaces(x, b);
    } else {
      assert a + x + b == (a + b) + "";
      StripLeadingSpaces(a + b, "");
    }
  }

  /** Stripping twice is stripping once. */
  lemma StripIdempotent(s: string)
    ensures Strip(Strip(s)) == Strip(s)
  {
  }

  /** The names list of the trend page: the input split on every comma, each
      piece stripped. Empty pieces stay in the list. */
  function ParseNames(input: string): (names: seq<string>)
    ensures |names| == Occurrences(input, ',') + 1
    ensures forall k :: 0 <= k < |names| ==> ',' !in names[k] && Trimmed(names[k])
  {
    var pieces := Split(input, ',');
    seq(|pieces|, k requires 0 <= k < |pieces| => Strip(pieces[k]))
  }

  /** Each name surrounded by its own whitespace padding. */
  function Padded(names: seq<string>, pre: seq<string>, post: seq<string>): seq<string>
    requires |pre| == |names| && |post| == |names|
  {
    seq(|names|, k requires 0 <= k < |names| => pre[k] + names[k] + post[k])
  }

  /** Parsing recovers the names from any comma-separated text made of them,
      whatever whitespace surrounds each one. */
  lemma ParsePadded(names: seq<string>, pre: seq<string>, post: seq<string>)
    requires |names| > 0 && |pre| == |names| && |post| == |names|
    requires forall k :: 0 <= k < |names| ==>
               ',' !in names[k] && Trimmed(names[k]) && AllSpace(pre[k]) && AllSpace(post[k])
    ensures ParseNames(Join(Padded(names, pre, post), ',')) == names
  {
    var pieces := Padded(names, pre, post);
    forall k | 0 <= k < |pieces|
      ensures ',' !in pieces[k]
    {
      assert forall c :: c in pre[k] ==> IsSpace(c);
      assert forall c :: c in post[k] ==> IsSpace(c);
    }
    SplitJoin(pieces, ',');
    forall k | 0 <= k < |names|
      ensures Strip(pieces[k]) == names[k]
    {
      StripPadded(pre[k], names[k], post[k]);
    }
  }
}
