/** The handful of Python `str` operations the codec relies on, written out
    so that their properties can be proved: `strip`, `split()` without a
    separator, `' '.join`, `split('=', 1)`, `upper`, `startswith`, `in`,
    and decimal `int(...)` / `str(...)` of integers.

    Whitespace is the ASCII and Latin-1 part of Python's `str.isspace`;
    case mapping is ASCII only. */
module Text {
  import opened Wrappers

  predicate IsSpace(c: char) {
    c == ' ' || c == '\t' || c == '\n' || c == '\r' || c == '\U{B}' || c == '\U{C}'
    || c == '\U{1C}' || c == '\U{1D}' || c == '\U{1E}' || c == '\U{1F}'
    || c == '\U{85}' || c == '\U{A0}'
  }

  predicate NoSpace(s: string) {
    forall i :: 0 <= i < |s| ==> !IsSpace(s[i])
  }

  /** A token `split()` can produce: non-empty and free of whitespace. */
  predicate IsToken(s: string) {
    |s| > 0 && NoSpace(s)
  }

  // ---------------------------------------------------------------- strip

  function LStrip(s: string): (r: string)
    ensures |r| <= |s| && r == s[|s| - |r|..]
    ensures r == [] || !IsSpace(r[0])
    ensures forall i :: 0 <= i < |s| - |r| ==> IsSpace(s[i])
  {
    if s == [] then s
    else if IsSpace(s[0]) then LStrip(s[1..])
    else s
  }

  function RStrip(s: string): (r: string)
    ensures |r| <= |s| && r == s[..|r|]
    ensures r == [] || !IsSpace(r[|r| - 1])
    ensures forall i :: |r| <= i < |s| ==> IsSpace(s[i])
  {
    if s == [] then s
    else if IsSpace(s[|s| - 1]) then RStrip(s[..|s| - 1])
    else s
  }

  /** Python `s.strip()`. */
  function Strip(s: string): string {
    RStrip(LStrip(s))
  }

  /** `strip` leaves neither leading nor trailing whitespace and is
      idempotent. */
  lemma StripProperties(s: string)
    ensures var r := Strip(s);
      && (r == [] || (!IsSpace(r[0]) && !IsSpace(r[|r| - 1])))
      && Strip(r) == r
  {
    var l := LStrip(s);
    var r := RStrip(l);
    if r != [] {
      assert r[0] == l[0];
    }
  }

  predicate AllSpace(s: string) {
    forall i :: 0 <= i < |s| ==> IsSpace(s[i])
  }

  /** Neither starts nor ends with whitespace: what `strip` returns. */
  predicate Trimmed(s: string) {
    s == [] || (!IsSpace(s[0]) && !IsSpace(s[|s| - 1]))
  }

  lemma {:induction false} LStripSpaces(pre: string, rest: string)
    requires AllSpace(pre)
    requires rest == [] || !IsSpace(rest[0])
    ensures LStrip(pre + rest) == rest
  {
    if pre != [] {
      assert (pre + rest)[1..] == pre[1..] + rest;
      LStripSpaces(pre[1..], rest);
    } else {
      assert pre + rest == rest;
    }
  }

  lemma {:induction false} RStripSpaces(rest: string, post: string)
    requires AllSpace(post)
    requires rest == [] || !IsSpace(rest[|rest| - 1])
    ensures RStrip(rest + post) == rest
  {
    if post != [] {
      var s := rest + post;
      assert s[..|s| - 1] == rest + post[..|post| - 1];
      RStripSpaces(rest, post[..|post| - 1]);
    } else {
      assert rest + post == rest;
    }
  }

  /** `strip` removes exactly the whitespace padding around a trimmed
      string. */
  lemma StripPadding(pre: string, s: string, post: string)
    requires AllSpace(pre) && AllSpace(post) && Trimmed(s)
    ensures Strip(pre + s + post) == s
  {
    if s == [] {
      assert pre + s + post == pre + post;
      LStripSpaces(pre + post, []);
      assert pre + post + [] == pre + post;
    } else {
      assert pre + s + post == pre + (s + post);
      LStripSpaces(pre, s + post);
      RStripSpaces(s, post);
    }
  }

  // ---------------------------------------------------------------- split

  /** The longest whitespace-free prefix of `s`. */
  function TakeToken(s: string): (t: string)
    ensures |t| <= |s| && t == s[..|t|] && NoSpace(t)
    ensures |t| < |s| ==> IsSpace(s[|t|])
  {
    if s == [] || IsSpace(s[0]) then []
    else [s[0]] + TakeToken(s[1..])
  }

  /** Python `s.split()`: the maximal runs of non-whitespace characters. */
  function Split(s: string): (ts: seq<string>)
    ensures forall i :: 0 <= i < |ts| ==> IsToken(ts[i])
  {
    if s == [] then []
    else if IsSpace(s[0]) then Split(s[1..])
    else
      var t := TakeToken(s);
      [t] + Split(s[|t|..])
  }

  /** Python `' '.join(ts)`. */
  function Join(ts: seq<string>): string {
    if ts == [] then ""
    else if |ts| == 1 then ts[0]
    else ts[0] + " " + Join(ts[1..])
  }

  lemma {:induction false} TakeTokenOfJoin(t: string, rest: string)
    requires NoSpace(t)
    requires rest == [] || IsSpace(rest[0])
    ensures TakeToken(t + rest) == t
  {
    if t != [] {
      assert (t + rest)[1..] == t[1..] + rest;
      TakeTokenOfJoin(t[1..], rest);
    } else {
      assert t + rest == rest;
    }
  }

  lemma {:induction false} SplitSkipsSpace(s: string)
    requires |s| > 0 && IsSpace(s[0])
    ensures Split(s) == Split(s[1..])
  {
  }

  /** `split()` undoes `' '.join` on whitespace-free, non-empty tokens. */
  lemma {:induction false} SplitJoin(ts: seq<string>)
    requires forall i :: 0 <= i < |ts| ==> IsToken(ts[i])
    ensures Split(Join(ts)) == ts
  {
    if ts == [] {
    } else if |ts| == 1 {
      var t := ts[0];
      TakeTokenOfJoin(t, []);
      assert t + [] == t;
      assert t[|t|..] == [];
    } else {
      var t := ts[0];
      var rest := " " + Join(ts[1..]);
      assert Join(ts) == t + rest;
      TakeTokenOfJoin(t, rest);
      assert (t + rest)[|t|..] == rest;
      SplitSkipsSpace(rest);
      assert rest[1..] == Join(ts[1..]);
      SplitJoin(ts[1..]);
    }
  }

  /** `gaps[0] + ts[0] + gaps[1] + ... + ts[n - 1] + gaps[n]`: tokens laid
      out between runs of text. */
  function Interleave(gaps: seq<string>, ts: seq<string>): string
    requires |gaps| == |ts| + 1
    decreases |ts|
  {
    if ts == [] then gaps[0] else gaps[0] + ts[0] + Interleave(gaps[1..], ts[1..])
  }

  /** Runs of whitespace that may pad a list of tokens (the first and the
      last, possibly empty) and separate them (the inner ones, never
      empty). */
  predicate Separators(gaps: seq<string>) {
    && |gaps| > 0
    && (forall i :: 0 <= i < |gaps| ==> AllSpace(gaps[i]))
    && (forall i :: 0 < i < |gaps| - 1 ==> gaps[i] != [])
  }

  /** The whitespace runs of `s` around and between its tokens. */
  function Gaps(s: string): seq<string>
    decreases |s|
  {
    if s == [] then [[]]
    else if IsSpace(s[0]) then
      var g := Gaps(s[1..]);
      if g == [] then [[s[0]]] else [[s[0]] + g[0]] + g[1..]
    else [[]] + Gaps(s[|TakeToken(s)|..])
  }

  lemma {:induction false} SplitSkipsSpaces(pre: string, rest: string)
    requires AllSpace(pre)
    ensures Split(pre + rest) == Split(rest)
  {
    if pre != [] {
      assert (pre + rest)[1..] == pre[1..] + rest;
      SplitSkipsSpaces(pre[1..], rest);
    } else {
      assert pre + rest == rest;
    }
  }

  /** What SplitGaps promises of `gs` for `s`. */
  predicate GapsOf(s: string, gs: seq<string>) {
    && |gs| == |Split(s)| + 1 && Separators(gs)
    && Interleave(gs, Split(s)) == s
    && (s != [] && IsSpace(s[0]) ==> gs[0] != [])
  }

  /** Every text is its `split()` tokens, separated by non-empty runs of
      whitespace and padded by possibly empty ones. */
  lemma {:induction false} SplitGaps(s: string)
    ensures GapsOf(s, Gaps(s))
    decreases |s|
  {
    if s == [] {
    } else if IsSpace(s[0]) {
      SplitGaps(s[1..]);
      GapsAfterSpace(s);
    } else {
      SplitGaps(s[|TakeToken(s)|..]);
      GapsAfterToken(s);
    }
  }

  lemma GapsAfterSpace(s: string)
    requires s != [] && IsSpace(s[0])
    requires GapsOf(s[1..], Gaps(s[1..]))
    ensures GapsOf(s, Gaps(s))
  {
    var g := Gaps(s[1..]);
    var gs := Gaps(s);
    assert Split(s) == Split(s[1..]);
    assert gs == [[s[0]] + g[0]] + g[1..];
    assert forall i :: 0 < i < |gs| ==> gs[i] == g[i];
    assert AllSpace(gs[0]);
    InterleaveFront([s[0]], g, Split(s));
    assert s == [s[0]] + s[1..];
  }

  /** Text put in front of the first run is put in front of the whole. */
  lemma InterleaveFront(pre: string, g: seq<string>, ts: seq<string>)
    requires |g| == |ts| + 1
    ensures Interleave([pre + g[0]] + g[1..], ts) == pre + Interleave(g, ts)
  {
    var gs := [pre + g[0]] + g[1..];
    if ts != [] {
      assert gs[1..] == g[1..];
      var rest := Interleave(g[1..], ts[1..]);
      assert (pre + g[0]) + ts[0] + rest == pre + (g[0] + ts[0] + rest);
    }
  }

  lemma GapsAfterToken(s: string)
    requires s != [] && !IsSpace(s[0])
    requires GapsOf(s[|TakeToken(s)|..], Gaps(s[|TakeToken(s)|..]))
    ensures GapsOf(s, Gaps(s))
  {
    var t := TakeToken(s);
    var rest := s[|t|..];
    var g := Gaps(rest);
    var ts := Split(rest);
    assert Gaps(s) == [[]] + g;
    assert Split(s) == [t] + ts;
    assert s == t + rest;
    if ts != [] {
      assert rest != [] && IsSpace(rest[0]);
    }
    PrependToken(t, g, ts);
  }

  /** A token in front of a run-separated text: the runs gain an empty
      leading one, and the former leading run becomes an inner one. */
  lemma PrependToken(t: string, g: seq<string>, ts: seq<string>)
    requires |g| == |ts| + 1 && Separators(g)
    requires ts != [] ==> g[0] != []
    ensures Separators([[]] + g)
    ensures Interleave([[]] + g, [t] + ts) == t + Interleave(g, ts)
  {
    PrependRun(g, |ts|);
    var gs := [[]] + g;
    assert gs[1..] == g;
    assert ([t] + ts)[1..] == ts;
    assert gs[0] + t == t;
  }

  lemma PrependRun(g: seq<string>, n: nat)
    requires |g| == n + 1 && Separators(g)
    requires n > 0 ==> g[0] != []
    ensures Separators([[]] + g)
  {
    var gs := [[]] + g;
    forall i | 0 <= i < |gs|
      ensures AllSpace(gs[i]) && (0 < i < |gs| - 1 ==> gs[i] != [])
    {
      if i > 0 {
        assert gs[i] == g[i - 1];
      }
    }
  }

  /** Conversely, tokens laid out between such runs are exactly what
      `split()` returns: together with SplitGaps, the tokens are the
      maximal whitespace-free runs of the text, in order. */
  lemma {:induction false} SplitInterleave(gaps: seq<string>, ts: seq<string>)
    requires |gaps| == |ts| + 1 && Separators(gaps)
    requires forall i :: 0 <= i < |ts| ==> IsToken(ts[i])
    ensures Split(Interleave(gaps, ts)) == ts
    decreases |ts|
  {
    if ts == [] {
      SplitSkipsSpaces(gaps[0], []);
      assert gaps[0] + [] == gaps[0];
    } else {
      var t := ts[0];
      var rest := Interleave(gaps[1..], ts[1..]);
      assert Interleave(gaps, ts) == gaps[0] + (t + rest);
      SplitSkipsSpaces(gaps[0], t + rest);
      if ts[1..] == [] {
        assert rest == gaps[1];
      } else {
        assert gaps[1] != [];
        assert rest == gaps[1] + (ts[1] + Interleave(gaps[2..], ts[2..]));
      }
      assert rest == [] || IsSpace(rest[0]);
      TakeTokenOfJoin(t, rest);
      assert (t + rest)[|t|..] == rest;
      assert Separators(gaps[1..]) by {
        assert forall i :: 0 <= i < |gaps[1..]| ==> gaps[1..][i] == gaps[i + 1];
      }
      SplitInterleave(gaps[1..], ts[1..]);
    }
  }

  // ---------------------------------------------------- split('=', 1)

  /** Index of the first occurrence of `c`, or `|s|` if there is none. */
  function IndexOf<T(==)>(s: seq<T>, c: T): (k: nat)
    ensures k <= |s|
    ensures forall i :: 0 <= i < k ==> s[i] != c
    ensures k < |s| ==> s[k] == c
  {
    if s == [] then 0
    else if s[0] == c then 0
    else 1 + IndexOf(s[1..], c)
  }

  /** `line.split('=', 1)[0]`: everything before the first `=`, or the
      whole line when there is none. */
  function KeyPart(line: string): string {
    line[..IndexOf(line, '=')]
  }

  /** `line.split('=', 1)[-1]`: everything after the first `=`, or the
      whole line when there is none. */
  function ValuePart(line: string): string {
    var k := IndexOf(line, '=');
    if k < |line| then line[k + 1..] else line
  }

  lemma {:induction false} IndexOfAppend<T>(a: seq<T>, b: seq<T>, c: T)
    requires forall i :: 0 <= i < |a| ==> a[i] != c
    ensures IndexOf(a + b, c) == |a| + IndexOf(b, c)
  {
    if a != [] {
      assert (a + b)[1..] == a[1..] + b;
      IndexOfAppend(a[1..], b, c);
    } else {
      assert a + b == b;
    }
  }

  lemma AssignmentIndex(key: string, value: string)
    requires forall i :: 0 <= i < |key| ==> key[i] != '='
    ensures IndexOf(key + " = " + value + "\n", '=') == |key| + 1
  {
    var tail := " = " + value + "\n";
    assert key + " = " + value + "\n" == key + tail;
    IndexOfAppend(key, tail, '=');
    assert tail[0] == ' ' && tail[1] == '=';
  }

  lemma KeyOfAssignment(key: string, value: string)
    requires key != [] && Trimmed(key) && forall i :: 0 <= i < |key| ==> key[i] != '='
    ensures Strip(KeyPart(key + " = " + value + "\n")) == key
  {
    var a := key + " ";
    var b := "= " + value + "\n";
    assert key + " = " + value + "\n" == a + b;
    AssignmentIndex(key, value);
    assert (a + b)[..|a|] == a;
    StripPadding([], key, " ");
    assert [] + key + " " == a;
  }

  lemma ValueOfAssignment(key: string, value: string)
    requires forall i :: 0 <= i < |key| ==> key[i] != '='
    requires Trimmed(value)
    ensures Strip(ValuePart(key + " = " + value + "\n")) == value
  {
    var a := key + " =";
    var b := " " + value + "\n";
    assert key + " = " + value + "\n" == a + b;
    AssignmentIndex(key, value);
    assert (a + b)[|a|..] == b;
    StripPadding(" ", value, "\n");
  }

  /** The line `key = value` as written by the writers splits back into
      `key` and `value` when the key holds no `=` and neither has
      surrounding whitespace. */
  lemma SplitAssignment(key: string, value: string)
    requires key != [] && Trimmed(key) && forall i :: 0 <= i < |key| ==> key[i] != '='
    requires Trimmed(value)
    ensures Strip(KeyPart(key + " = " + value + "\n")) == key
    ensures Strip(ValuePart(key + " = " + value + "\n")) == value
  {
    KeyOfAssignment(key, value);
    ValueOfAssignment(key, value);
  }

  /** Python `c in s` for a one-character needle. */
  predicate Contains(s: string, c: char) {
    exists i :: 0 <= i < |s| && s[i] == c
  }

  predicate StartsWith(s: string, prefix: string) {
    |prefix| <= |s| && s[..|prefix|] == prefix
  }

  // ---------------------------------------------------------------- lines

  /** The first `n` elements. */
  function Take<T>(s: seq<T>, n: nat): seq<T>
    requires n <= |s|
  {
    s[..n]
  }

  function Flatten<T>(ls: seq<seq<T>>): seq<T> {
    if ls == [] then [] else ls[0] + Flatten(ls[1..])
  }

  /** Iterating over a file: the content cut after every `nl`; the last
      piece lacks the terminator when the content does not end with one. */
  function Lines<T(==)>(s: seq<T>, nl: T): (ls: seq<seq<T>>)
    ensures Flatten(ls) == s
    ensures forall i :: 0 <= i < |ls| ==> |ls[i]| > 0
    decreases |s|
  {
    if s == [] then []
    else
      var k := IndexOf(s, nl);
      if k < |s| then
        var rest := Lines(s[k + 1..], nl);
        assert s[..k + 1] + s[k + 1..] == s;
        [s[..k + 1]] + rest
      else [s]
  }

  lemma {:induction false} FlattenAppend<T>(a: seq<seq<T>>, b: seq<seq<T>>)
    ensures Flatten(a + b) == Flatten(a) + Flatten(b)
  {
    if a != [] {
      assert (a + b)[1..] == a[1..] + b;
      FlattenAppend(a[1..], b);
    } else {
      assert a + b == b;
    }
  }

  /** The first `n` pieces, joined, are a prefix of the whole. */
  lemma FlattenTake<T>(ls: seq<seq<T>>, n: nat)
    requires n <= |ls|
    ensures |Flatten(Take(ls, n))| <= |Flatten(ls)|
    ensures Flatten(ls)[..|Flatten(Take(ls, n))|] == Flatten(Take(ls, n))
  {
    assert ls == Take(ls, n) + ls[n..];
    FlattenAppend(Take(ls, n), ls[n..]);
  }

  /** Cutting the concatenation of terminated lines gives the lines back. */
  lemma {:induction false} LinesOfFlatten<T>(ls: seq<seq<T>>, nl: T)
    requires forall i :: 0 <= i < |ls| ==> |ls[i]| > 0 && ls[i][|ls[i]| - 1] == nl
    requires forall i, j :: 0 <= i < |ls| && 0 <= j < |ls[i]| - 1 ==> ls[i][j] != nl
    ensures Lines(Flatten(ls), nl) == ls
  {
    if ls != [] {
      var l, tl := ls[0], ls[1..];
      assert Flatten(ls) == l + Flatten(tl);
      assert forall j :: 0 <= j < |l| - 1 ==> l[j] != nl;
      assert forall i :: 0 <= i < |tl| ==> tl[i] == ls[i + 1];
      LinesCons(l, Flatten(tl), nl);
      LinesOfFlatten(tl, nl);
    }
  }

  /** A line ending at its first terminator is cut off whole. */
  lemma LinesCons<T>(l: seq<T>, rest: seq<T>, nl: T)
    requires |l| > 0 && l[|l| - 1] == nl
    requires forall j :: 0 <= j < |l| - 1 ==> l[j] != nl
    ensures Lines(l + rest, nl) == [l] + Lines(rest, nl)
  {
    var s := l + rest;
    IndexOfAppend(l[..|l| - 1], [nl] + rest, nl);
    assert l[..|l| - 1] + ([nl] + rest) == s;
    assert s[..|l|] == l;
    assert s[|l|..] == rest;
  }

  /** The first `n` lines of a content are the lines of their own
      concatenation: reading a prefix that ends at a line end sees the same
      lines. */
  lemma {:induction false} LinesPrefix<T>(s: seq<T>, nl: T, n: nat)
    requires n <= |Lines(s, nl)|
    ensures Lines(Flatten(Take(Lines(s, nl), n)), nl) == Take(Lines(s, nl), n)
    decreases |s|
  {
    var ls := Lines(s, nl);
    if n == 0 {
      assert Take(ls, 0) == [];
    } else {
      var k := IndexOf(s, nl);
      if k < |s| {
        var l := s[..k + 1];
        var rest := Lines(s[k + 1..], nl);
        assert ls == [l] + rest;
        LinesPrefix(s[k + 1..], nl, n - 1);
        var p := Take(rest, n - 1);
        assert Take(ls, n) == [l] + p;
        assert Take(ls, n)[1..] == p;
        assert Flatten(Take(ls, n)) == l + Flatten(p);
        LinesCons(l, Flatten(p), nl);
      } else {
        assert Take(ls, n) == [s];
        assert Flatten([s]) == s + Flatten([]);
      }
    }
  }

  // ---------------------------------------------------------------- upper

  predicate IsLower(c: char) {
    'a' <= c <= 'z'
  }

  function UpperChar(c: char): char {
    if IsLower(c) then (c as int - 32) as char else c
  }

  /** Python `s.upper()`, for ASCII letters: no lower-case letter is left,
      each one is replaced by its capital (32 code points lower), and every
      other character stays where it was. */
  function Upper(s: string): (r: string)
    ensures |r| == |s|
    ensures forall i :: 0 <= i < |r| ==> !IsLower(r[i])
    ensures forall i :: 0 <= i < |s| && IsLower(s[i]) ==> r[i] as int == s[i] as int - 32
    ensures forall i :: 0 <= i < |s| && !IsLower(s[i]) ==> r[i] == s[i]
  {
    seq(|s|, i requires 0 <= i < |s| => UpperChar(s[i]))
  }

  /** Upper-casing is idempotent, so comparing `Upper(a) == Upper(b)` is
      an equivalence that `Upper(a)` itself belongs to. */
  lemma UpperIdempotent(s: string)
    ensures Upper(Upper(s)) == Upper(s)
  {
  }

  lemma UpperWithoutLowercase(s: string)
    requires forall i :: 0 <= i < |s| ==> !IsLower(s[i])
    ensures Upper(s) == s
  {
  }

  // -------------------------------------------------------------- decimal

  predicate IsDigit(c: char) {
    '0' <= c <= '9'
  }

  predicate AllDigits(s: string) {
    forall i :: 0 <= i < |s| ==> IsDigit(s[i])
  }

  function DigitChar(d: nat): char
    requires d < 10
  {
    ('0' as int + d) as char
  }

  /** Python `str(n)` for a natural number. */
  function Decimal(n: nat): (s: string)
    ensures |s| > 0 && AllDigits(s)
  {
    if n < 10 then [DigitChar(n)]
    else Decimal(n / 10) + [DigitChar(n % 10)]
  }

  /** Python `str(i)` for any integer. */
  function FormatInt(i: int): (s: string)
    ensures IsToken(s)
  {
    if i < 0 then "-" + Decimal(-i) else Decimal(i)
  }

  /** The value of a non-empty run of decimal digits. */
  function DigitsValue(s: string): nat
    requires AllDigits(s)
  {
    if s == [] then 0
    else DigitsValue(s[..|s| - 1]) * 10 + (s[|s| - 1] as int - '0' as int)
  }

  /** Python `int(s)` for an already stripped string: an optional sign
      followed by at least one decimal digit. */
  function ParseInt(s: string): Option<int> {
    if |s| > 0 && (s[0] == '-' || s[0] == '+') then
      var digits := s[1..];
      if |digits| > 0 && AllDigits(digits) then
        var v: int := DigitsValue(digits);
        Some(if s[0] == '-' then -v else v)
      else None
    else if |s| > 0 && AllDigits(s) then Some(DigitsValue(s))
    else None
  }

  lemma {:induction false} DecimalValue(n: nat)
    ensures DigitsValue(Decimal(n)) == n
  {
    if n >= 10 {
      var s := Decimal(n);
      assert s[..|s| - 1] == Decimal(n / 10);
      DecimalValue(n / 10);
    }
  }

  /** Reading back a printed integer gives the integer. */
  lemma {:induction false} ParseFormatInt(i: int)
    ensures ParseInt(FormatInt(i)) == Some(i)
  {
    var s := FormatInt(i);
    if i < 0 {
      var d := Decimal(-i);
      assert s == "-" + d && s[1..] == d;
      DecimalValue(-i);
    } else {
      assert IsDigit(s[0]);
      DecimalValue(i);
    }
  }
}
