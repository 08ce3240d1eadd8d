/** The usual optional value. */
module Wrappers {
  datatype Option<+T> = None | Some(value: T)

  /** Python's `d.get(k)`. */
  function Get<K, V>(m: map<K, V>, k: K): (r: Option<V>)
    ensures r.Some? <==> k in m
    ensures r.Some? ==> r.value == m[k]
  {
    if k in m then Some(m[k]) else None
  }
}

/** The few pieces of Python's `str` behaviour the model relies on. */
module Text {
  import opened Wrappers

  /** `sub` occurs in `s` starting at index `i`. */
  predicate OccursAt(s: string, sub: string, i: nat)
  {
    i + |sub| <= |s| && s[i..i + |sub|] == sub
  }

  /** The least index at or after `from` where `sub` occurs in `s` (`s.find(sub, from)`,
      with `None` for -1). */
  function IndexOf(s: string, sub: string, from: nat): (r: Option<nat>)
    decreases |s| - from
    ensures r.Some? ==> from <= r.value && r.value + |sub| <= |s|
  {
    if from + |sub| > |s| then None
    else if s[from..from + |sub|] == sub then Some(from)
    else IndexOf(s, sub, from + 1)
  }

  /** `IndexOf` finds an occurrence, the first one from `from` on, and finds nothing only
      when there is none. */
  lemma {:induction false} IndexOfSpec(s: string, sub: string, from: nat)
    decreases |s| - from
    ensures IndexOf(s, sub, from).Some? ==>
      from <= IndexOf(s, sub, from).value && OccursAt(s, sub, IndexOf(s, sub, from).value)
    ensures IndexOf(s, sub, from).Some? ==>
      forall j: nat :: from <= j < IndexOf(s, sub, from).value ==> !OccursAt(s, sub, j)
    ensures IndexOf(s, sub, from).None? ==> forall j: nat :: from <= j ==> !OccursAt(s, sub, j)
  {
    if from + |sub| <= |s| && s[from..from + |sub|] != sub {
      IndexOfSpec(s, sub, from + 1);
    }
  }

  /** An occurrence with none before it (from `from` on) is the one `IndexOf` finds. */
  lemma IndexOfIs(s: string, sub: string, from: nat, k: nat)
    requires from <= k && OccursAt(s, sub, k)
    requires forall j: nat :: from <= j < k ==> !OccursAt(s, sub, j)
    ensures IndexOf(s, sub, from) == Some(k)
  {
    IndexOfSpec(s, sub, from);
  }

  /** Python's `sub in s`. */
  function Contains(s: string, sub: string): bool
  {
    IndexOf(s, sub, 0).Some?
  }

  /** `sub in s` holds exactly when `sub` occurs somewhere in `s`. */
  lemma ContainsSpec(s: string, sub: string)
    ensures Contains(s, sub) <==> exists i: nat :: OccursAt(s, sub, i)
  {
    IndexOfSpec(s, sub, 0);
  }

  /** A slice of a slice is a slice. */
  lemma SliceOfSlice<T>(s: seq<T>, a: nat, b: nat, c: nat, d: nat)
    requires a <= b <= |s| && c <= d <= b - a
    ensures s[a..b][c..d] == s[a + c..a + d]
  {
    var u, v := s[a..b][c..d], s[a + c..a + d];
    forall i | 0 <= i < |u| ensures u[i] == v[i] {
    }
  }

  /** A non-empty sequence is its front followed by its last element. */
  lemma LastSplit<T>(s: seq<T>)
    requires s != []
    ensures s == s[..|s| - 1] + [s[|s| - 1]]
  {
  }

  /** The prefix of length `i + 1` extends the prefix of length `i` by `s[i]`. */
  lemma PrefixStep<T>(s: seq<T>, i: nat)
    requires i < |s|
    ensures s[..i + 1][..i] == s[..i] && s[..i + 1] == s[..i] + [s[i]]
  {
  }

  /** The prefix of full length is the whole sequence. */
  lemma WholePrefix<T>(s: seq<T>)
    ensures s[..|s|] == s
  {
  }

  /** `p` is the piece of `s` that starts at `start` and runs up to the next occurrence of
      `sep` (or to the end when there is none). */
  ghost predicate PieceAt(s: string, sep: string, start: nat, p: string)
  {
    && start + |p| <= |s|
    && s[start..start + |p|] == p
    && (forall j: nat :: start <= j < start + |p| ==> !OccursAt(s, sep, j))
    && (start + |p| == |s| || OccursAt(s, sep, start + |p|))
  }

  /** A piece that runs up to the next occurrence of its separator does not contain it. */
  lemma PieceHasNoSeparator(s: string, sep: string, start: nat, p: string)
    requires |sep| > 0 && PieceAt(s, sep, start, p)
    ensures !Contains(p, sep)
  {
    forall k: nat | k + |sep| <= |p| ensures !OccursAt(p, sep, k) {
      SliceOfSlice(s, start, start + |p|, k, k + |sep|);
      assert !OccursAt(s, sep, start + k);
    }
    ContainsSpec(p, sep);
  }

  /** The text of `s` from `start` up to the next occurrence of `sep`, or to the end. */
  function Piece(s: string, sep: string, start: nat): string
    requires start <= |s|
  {
    match IndexOf(s, sep, start)
    case None => s[start..]
    case Some(k) => s[start..k]
  }

  /** `Piece` stops exactly at the next occurrence, so it holds none. */
  lemma PieceIsPiece(s: string, sep: string, start: nat)
    requires start <= |s| && |sep| > 0
    ensures PieceAt(s, sep, start, Piece(s, sep, start))
    ensures !Contains(Piece(s, sep, start), sep)
  {
    IndexOfSpec(s, sep, start);
    match IndexOf(s, sep, start) {
      case None =>
      case Some(k) =>
    }
    PieceHasNoSeparator(s, sep, start, Piece(s, sep, start));
  }

  /** Python's `s.split(sep)[1]`: the text between the first and the second occurrence of
      `sep`, or from the first occurrence to the end; `None` stands for the IndexError that
      indexing raises when `sep` does not occur at all. */
  function SplitSecond(s: string, sep: string): (r: Option<string>)
    requires |sep| > 0
    ensures r.None? <==> !Contains(s, sep)
  {
    match IndexOf(s, sep, 0)
    case None => None
    case Some(i) => Some(Piece(s, sep, i + |sep|))
  }

  /** A piece that starts with `head`, where the separator starts nowhere inside `head`,
      keeps all of `head`. */
  lemma PieceKeepsHead(s: string, sep: string, start: nat, head: string)
    requires start + |head| <= |s| && |sep| > 0
    requires s[start..start + |head|] == head
    requires forall q: nat :: start <= q < start + |head| ==> !OccursAt(s, sep, q)
    ensures exists tail :: Piece(s, sep, start) == head + tail
  {
    var stop: nat := |s|;
    IndexOfSpec(s, sep, start);
    match IndexOf(s, sep, start) {
      case None =>
      case Some(k) => stop := k;
    }
    assert Piece(s, sep, start) == s[start..stop];
    assert s[start..stop] == head + s[start + |head|..stop];
  }

  /** An occurrence in the back part of a concatenation is an occurrence in that part. */
  lemma OccursShift(a: string, b: string, sub: string, j: nat)
    ensures OccursAt(a + b, sub, |a| + j) <==> OccursAt(b, sub, j)
  {
    if j + |sub| <= |b| {
      assert (a + b)[|a| + j..|a| + j + |sub|] == b[j..j + |sub|];
    }
  }

  /** The piece after a prefix `pre` of a text that starts with `head`, where the separator
      starts nowhere inside `head`, keeps all of `head`. */
  lemma PieceAfterPrefix(pre: string, head: string, rest: string, sep: string)
    requires |sep| > 0
    requires forall q: nat :: q < |head| ==> !OccursAt(head + rest, sep, q)
    ensures exists tail :: Piece(pre + (head + rest), sep, |pre|) == head + tail
  {
    var s := pre + (head + rest);
    forall q: nat | |pre| <= q < |pre| + |head| ensures !OccursAt(s, sep, q) {
      OccursShift(pre, head + rest, sep, q - |pre|);
    }
    assert s[|pre|..|pre| + |head|] == head;
    PieceKeepsHead(s, sep, |pre|, head);
  }

  /** Python's `str.isspace` for one character. */
  predicate IsSpace(c: char)
  {
    || ('\t' <= c <= '\r')
    || ('\U{1C}' <= c <= ' ')
    || c == '\U{85}' || c == '\U{A0}' || c == '\U{1680}'
    || ('\U{2000}' <= c <= '\U{200A}')
    || c == '\U{2028}' || c == '\U{2029}' || c == '\U{202F}' || c == '\U{205F}' || c == '\U{3000}'
  }

  /** Python's `s.lstrip()`. */
  function TrimLeft(s: string): (r: string)
    ensures |r| <= |s|
    ensures r == [] || !IsSpace(r[0])
    ensures forall i :: 0 <= i < |s| - |r| ==> IsSpace(s[i])
  {
    if s != [] && IsSpace(s[0]) then TrimLeft(s[1..]) else s
  }

  /** What `lstrip` keeps is the tail of its input. */
  lemma {:induction false} TrimLeftKeepsTail(s: string)
    ensures TrimLeft(s) == s[|s| - |TrimLeft(s)|..]
  {
    if s != [] && IsSpace(s[0]) {
      TrimLeftKeepsTail(s[1..]);
    }
  }

  /** Python's `s.rstrip()`. */
  function TrimRight(s: string): (r: string)
    ensures |r| <= |s|
    ensures r == [] || !IsSpace(r[|r| - 1])
    ensures forall i :: |r| <= i < |s| ==> IsSpace(s[i])
  {
    if s != [] && IsSpace(s[|s| - 1]) then TrimRight(s[..|s| - 1]) else s
  }

  /** What `rstrip` keeps is the head of its input. */
  lemma {:induction false} TrimRightKeepsHead(s: string)
    ensures TrimRight(s) == s[..|TrimRight(s)|]
  {
    if s != [] && IsSpace(s[|s| - 1]) {
      TrimRightKeepsHead(s[..|s| - 1]);
    }
  }

  /** Splitting a text that opens with a one-character quote at that quote gives back what
      lies before the next quote. */
  lemma SplitQuoted(q: char, body: string, z: string)
    requires !Contains(body, [q])
    ensures SplitSecond([q] + body + [q] + z, [q]) == Some(body)
  {
    var t := [q] + body + [q] + z;
    ContainsSpec(body, [q]);
    assert t[0..1] == [q];
    IndexOfIs(t, [q], 0, 0);
    forall j: nat | 1 <= j < 1 + |body| ensures !OccursAt(t, [q], j) {
      assert t[j..j + 1] == body[j - 1..j];
      assert !OccursAt(body, [q], j - 1);
    }
    assert t[1 + |body|..2 + |body|] == [q];
    IndexOfIs(t, [q], 1, 1 + |body|);
    assert t[1..1 + |body|] == body;
  }

  /** Stripping whitespace around a quoted text leaves the quoted text and what follows it. */
  lemma StripBeforeQuote(ws: string, q: char, body: string, z: string)
    requires forall i :: 0 <= i < |ws| ==> IsSpace(ws[i])
    requires !IsSpace(q)
    ensures Strip(ws + ([q] + body + [q] + z)) == [q] + body + [q] + TrimRight(z)
  {
    var u := [q] + body + [q];
    TrimLeftSkipsSpaces(ws, u + z);
    assert TrimLeft(u + z) == u + z;
    TrimRightStopsAt(u, z);
  }

  /** Leading whitespace makes no difference to `lstrip`. */
  lemma {:induction false} TrimLeftSkipsSpaces(ws: string, t: string)
    requires forall i :: 0 <= i < |ws| ==> IsSpace(ws[i])
    ensures TrimLeft(ws + t) == TrimLeft(t)
  {
    if ws == [] {
      assert ws + t == t;
    } else {
      assert (ws + t)[1..] == ws[1..] + t;
      TrimLeftSkipsSpaces(ws[1..], t);
    }
  }

  /** `rstrip` stops at the first non-space character from the right. */
  lemma {:induction false} TrimRightStopsAt(x: string, y: string)
    requires x != [] && !IsSpace(x[|x| - 1])
    ensures TrimRight(x + y) == x + TrimRight(y)
  {
    if y == [] {
      assert x + y == x;
    } else if IsSpace(y[|y| - 1]) {
      assert (x + y)[..|x + y| - 1] == x + y[..|y| - 1];
      TrimRightStopsAt(x, y[..|y| - 1]);
    }
  }

  /** Python's `s.strip()`. */
  function Strip(s: string): string
  {
    TrimRight(TrimLeft(s))
  }

  /** Python's `sep.join(parts)`. */
  function Join(parts: seq<string>, sep: string): string
  {
    if |parts| == 0 then ""
    else if |parts| == 1 then parts[0]
    else parts[0] + sep + Join(parts[1..], sep)
  }

  /** Joining two non-empty runs of parts puts exactly one separator between them. */
  lemma {:induction false} JoinAppend(a: seq<string>, b: seq<string>, sep: string)
    requires |a| > 0 && |b| > 0
    ensures Join(a + b, sep) == Join(a, sep) + sep + Join(b, sep)
  {
    if |a| == 1 {
      assert (a + b)[1..] == b;
    } else {
      assert (a + b)[1..] == a[1..] + b;
      JoinAppend(a[1..], b, sep);
    }
  }

  predicate IsDigit(c: char)
  {
    '0' <= c <= '9'
  }

  predicate AllDigits(s: string)
  {
    forall i :: 0 <= i < |s| ==> IsDigit(s[i])
  }

  /** The value of a run of ASCII decimal digits, as Python's `int` reads it. */
  function DigitsValue(s: string): nat
    requires AllDigits(s)
  {
    if s == [] then 0 else 10 * DigitsValue(s[..|s| - 1]) + (s[|s| - 1] as int - '0' as int)
  }

  function DigitChar(d: nat): (c: char)
    requires d < 10
    ensures IsDigit(c) && c as int - '0' as int == d
  {
    ('0' as int + d) as char
  }

  /** The decimal digits of `n` without leading zeros (`str(n)`). */
  function Decimal(n: nat): (r: string)
    ensures |r| >= 1 && AllDigits(r)
    ensures DigitsValue(r) == n
  {
    if n < 10 then [DigitChar(n)]
    else
      var r := Decimal(n / 10) + [DigitChar(n % 10)];
      assert r[..|r| - 1] == Decimal(n / 10);
      r
  }

  /** `n` in exactly `width` digits with leading zeros, as `%0<width>d` prints it when it fits. */
  function Padded(n: nat, width: nat): (r: string)
    ensures |r| == width && AllDigits(r)
    ensures n < Pow10(width) ==> DigitsValue(r) == n
  {
    if width == 0 then ""
    else
      var r := Padded(n / 10, width - 1) + [DigitChar(n % 10)];
      assert r[..|r| - 1] == Padded(n / 10, width - 1);
      r
  }

  function Pow10(k: nat): (p: nat)
    ensures p >= 1
  {
    if k == 0 then 1 else 10 * Pow10(k - 1)
  }
}
