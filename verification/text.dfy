/** The string operations the message builder relies on: Python's `str.split(sep)` with an
    explicit one-character separator, its inverse `sep.join`, and `str.strip()` with no
    argument. */
module Text {

  /** Python's `str.isspace()` for one character: the Unicode whitespace characters. */
  predicate IsSpace(c: char) {
    || ('\U{9}' <= c <= '\U{D}')
    || ('\U{1C}' <= c <= '\U{20}')
    || c == '\U{85}' || c == '\U{A0}' || c == '\U{1680}'
    || ('\U{2000}' <= c <= '\U{200A}')
    || c == '\U{2028}' || c == '\U{2029}' || c == '\U{202F}' || c == '\U{205F}' || c == '\U{3000}'
  }

  predicate AllSpace(s: string) {
    forall i :: 0 <= i < |s| ==> IsSpace(s[i])
  }

  /** `sep.join(pieces)` */
  function Join(pieces: seq<string>, sep: char): string {
    if |pieces| == 0 then ""
    else if |pieces| == 1 then pieces[0]
    else pieces[0] + [sep] + Join(pieces[1..], sep)
  }

  /** `s.split(sep)`: the maximal separator-free runs of `s`, in order; there is always at
      least one piece, and an empty `s` gives one empty piece. */
  function Split(s: string, sep: char): (r: seq<string>)
    ensures |r| >= 1
    ensures forall i :: 0 <= i < |r| ==> sep !in r[i]
    decreases |s|
  {
    if |s| == 0 then [""]
    else
      var rest := Split(s[1..], sep);
      if s[0] == sep then [""] + rest
      else [[s[0]] + rest[0]] + rest[1..]
  }

  /** Concatenation of a sequence of strings. */
  function Concat(parts: seq<string>): string {
    if |parts| == 0 then "" else parts[0] + Concat(parts[1..])
  }

  /** `s.lstrip()` */
  function StripLeft(s: string): (r: string)
    ensures |r| <= |s| && r == s[|s| - |r|..]
    ensures AllSpace(s[..|s| - |r|])
    ensures |r| == 0 || !IsSpace(r[0])
    decreases |s|
  {
    if |s| > 0 && IsSpace(s[0]) then
      var r := StripLeft(s[1..]);
      assert s[..|s| - |r|] == [s[0]] + s[1..][..|s| - 1 - |r|];
      r
    else s
  }

  /** `s.rstrip()` */
  function StripRight(s: string): (r: string)
    ensures |r| <= |s| && r == s[..|r|]
    ensures AllSpace(s[|r|..])
    ensures |r| == 0 || !IsSpace(r[|r| - 1])
    decreases |s|
  {
    if |s| > 0 && IsSpace(s[|s| - 1]) then
      var r := StripRight(s[..|s| - 1]);
      assert s[|r|..] == s[..|s| - 1][|r|..] + [s[|s| - 1]];
      r
    else s
  }

  /** `s.strip()` */
  function Strip(s: string): string {
    StripRight(StripLeft(s))
  }

  // ---------------------------------------------------------------------------
  // Properties of split and join

  /** Joining the pieces with the separator gives back the text: `split` loses nothing. */
  lemma {:induction false} JoinSplit(s: string, sep: char)
    ensures Join(Split(s, sep), sep) == s
    decreases |s|
  {
    if |s| > 0 {
      var rest := Split(s[1..], sep);
      JoinSplit(s[1..], sep);
      if s[0] == sep {
        assert s == [sep] + s[1..];
      } else {
        var r := [[s[0]] + rest[0]] + rest[1..];
        assert r[1..] == rest[1..];
        assert s == [s[0]] + s[1..];
      }
    }
  }

  /** Splitting text that starts with a separator-free run `a` extends the first piece. */
  lemma {:induction false} SplitPrefix(a: string, t: string, sep: char)
    requires sep !in a
    ensures Split(a + t, sep) == [a + Split(t, sep)[0]] + Split(t, sep)[1..]
    decreases |a|
  {
    if |a| > 0 {
      var r := Split(t, sep);
      var rest := Split(a[1..] + t, sep);
      assert rest == [a[1..] + r[0]] + r[1..] by {
        SplitPrefix(a[1..], t, sep);
      }
      assert Split(a + t, sep) == [[a[0]] + rest[0]] + rest[1..] by {
        SplitCons(a[0], a[1..] + t, sep);
        assert a + t == [a[0]] + (a[1..] + t);
      }
      assert [a[0]] + (a[1..] + r[0]) == a + r[0];
    } else {
      var r := Split(t, sep);
      assert a + t == t;
      assert a + r[0] == r[0];
      assert [r[0]] + r[1..] == r;
    }
  }

  /** A leading character other than the separator joins the first piece. */
  lemma SplitCons(c: char, t: string, sep: char)
    requires c != sep
    ensures Split([c] + t, sep) == [[c] + Split(t, sep)[0]] + Split(t, sep)[1..]
  {
    assert ([c] + t)[1..] == t;
  }

  /** `split` undoes `join` for separator-free pieces. */
  lemma {:induction false} SplitJoin(pieces: seq<string>, sep: char)
    requires |pieces| >= 1
    requires forall i :: 0 <= i < |pieces| ==> sep !in pieces[i]
    ensures Split(Join(pieces, sep), sep) == pieces
    decreases |pieces|
  {
    if |pieces| == 1 {
      SplitPrefix(pieces[0], "", sep);
      assert pieces[0] + "" == pieces[0];
    } else {
      var tail := Join(pieces[1..], sep);
      SplitJoin(pieces[1..], sep);
      SplitPrefix(pieces[0], [sep] + tail, sep);
      assert pieces[0] + [sep] + tail == pieces[0] + ([sep] + tail);
      assert ([sep] + tail)[1..] == tail;
      assert Split([sep] + tail, sep) == [""] + Split(tail, sep);
      assert pieces[0] + "" == pieces[0];
      assert pieces == [pieces[0]] + pieces[1..];
    }
  }

  /** Joining a leading piece onto at least one more puts a separator between them. */
  lemma JoinCons(x: string, rest: seq<string>, sep: char)
    requires |rest| >= 1
    ensures Join([x] + rest, sep) == x + [sep] + Join(rest, sep)
  {
    assert ([x] + rest)[1..] == rest;
  }

  /** The first piece is empty exactly when the text is empty or begins with the separator. */
  lemma SplitFirstEmpty(s: string, sep: char)
    ensures Split(s, sep)[0] == "" <==> |s| == 0 || s[0] == sep
  {
  }

  // ---------------------------------------------------------------------------
  // Properties of concatenation

  lemma AppendAssoc(a: string, b: string, c: string)
    ensures a + (b + c) == a + b + c
  {
  }

  lemma StartsWith(p: string, q: string)
    requires |p| > 0
    ensures (p + q)[0] == p[0]
  {
  }

  lemma EndsWith(p: string, q: string)
    requires |q| > 0
    ensures |p + q| > 0 && (p + q)[|p + q| - 1] == q[|q| - 1]
  {
  }

  // ---------------------------------------------------------------------------
  // Properties of strip

  /** `lstrip` removes a whitespace prefix up to the first non-whitespace character. */
  lemma {:induction false} StripLeftExact(lead: string, rest: string)
    requires AllSpace(lead)
    requires |rest| == 0 || !IsSpace(rest[0])
    ensures StripLeft(lead + rest) == rest
    decreases |lead|
  {
    if |lead| == 0 {
      assert lead + rest == rest;
    } else {
      assert StripLeft(lead[1..] + rest) == rest by {
        AllSpaceTail(lead);
        StripLeftExact(lead[1..], rest);
      }
      assert StripLeft(lead + rest) == StripLeft(lead[1..] + rest) by {
        HeadTail(lead, rest);
        StripLeftDrop(lead + rest);
      }
    }
  }

  /** A leading whitespace character is dropped by `lstrip`. */
  lemma StripLeftDrop(s: string)
    requires |s| > 0 && IsSpace(s[0])
    ensures StripLeft(s) == StripLeft(s[1..])
  {
  }

  /** The head and the tail of a concatenation whose left part is non-empty. */
  lemma HeadTail(a: string, b: string)
    requires |a| > 0
    ensures (a + b)[0] == a[0] && (a + b)[1..] == a[1..] + b
  {
  }

  lemma AllSpaceTail(s: string)
    requires |s| > 0 && AllSpace(s)
    ensures AllSpace(s[1..])
  {
    var t := s[1..];
    forall i | 0 <= i < |t| ensures IsSpace(t[i]) {
      assert t[i] == s[i + 1];
    }
  }

  lemma AllSpaceFront(s: string)
    requires |s| > 0 && AllSpace(s)
    ensures AllSpace(s[..|s| - 1])
  {
    var t := s[..|s| - 1];
    forall i | 0 <= i < |t| ensures IsSpace(t[i]) {
      assert t[i] == s[i];
    }
  }

  /** `rstrip` removes a whitespace suffix back to the last non-whitespace character. */
  lemma {:induction false} StripRightExact(core: string, trail: string)
    requires AllSpace(trail)
    requires |core| == 0 || !IsSpace(core[|core| - 1])
    ensures StripRight(core + trail) == core
    decreases |trail|
  {
    if |trail| == 0 {
      assert core + trail == core;
    } else {
      var s := core + trail;
      AllSpaceFront(trail);
      StripRightExact(core, trail[..|trail| - 1]);
      assert s[|s| - 1] == trail[|trail| - 1] && IsSpace(s[|s| - 1]);
      assert s[..|s| - 1] == core + trail[..|trail| - 1];
    }
  }

  /** `strip` removes exactly the whitespace around a core that begins and ends with
      non-whitespace, whatever that whitespace is. */
  lemma StripExact(lead: string, core: string, trail: string)
    requires AllSpace(lead) && AllSpace(trail)
    requires |core| == 0 || (!IsSpace(core[0]) && !IsSpace(core[|core| - 1]))
    ensures Strip(lead + core + trail) == core
  {
    if |core| == 0 {
      assert lead + core + trail == lead + trail;
      AllSpaceAppend(lead, trail);
      StripLeftExact(lead + trail, "");
      assert lead + trail + "" == lead + trail;
      assert StripRight("") == "";
    } else {
      AppendAssoc(lead, core, trail);
      StripLeftExact(lead, core + trail);
      StripRightExact(core, trail);
    }
  }

  lemma AllSpaceAppend(a: string, b: string)
    requires AllSpace(a) && AllSpace(b)
    ensures AllSpace(a + b)
  {
    var s := a + b;
    forall i | 0 <= i < |s| ensures IsSpace(s[i]) {
      if i < |a| {
        assert s[i] == a[i];
      } else {
        assert s[i] == b[i - |a|];
      }
    }
  }

  lemma StripLeftUnchanged(s: string)
    requires |s| > 0 && !IsSpace(s[0])
    ensures StripLeft(s) == s
  {
  }

  /** Text ending in a non-whitespace character shields it from `rstrip`. */
  lemma {:induction false} StripRightAfter(p: string, q: string)
    requires |p| > 0 && !IsSpace(p[|p| - 1])
    ensures StripRight(p + q) == p + StripRight(q)
    decreases |q|
  {
    if |q| == 0 {
      assert p + q == p;
    } else if IsSpace(q[|q| - 1]) {
      StripRightAfter(p, q[..|q| - 1]);
      assert (p + q)[..|p + q| - 1] == p + q[..|q| - 1];
    }
  }

  /** Stripping twice is stripping once. */
  lemma StripIdempotent(s: string)
    ensures Strip(Strip(s)) == Strip(s)
  {
    var r := Strip(s);
    StripExact("", r, "");
    assert "" + r + "" == r;
  }
}
