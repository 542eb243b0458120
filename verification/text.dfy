/**
 * The text normaliser `clean_text`: collapse every whitespace run to one
 * space, drop the characters outside ASCII, then strip both ends.
 */
module Text {
  import opened Sequences

  /**
   * The characters Python treats as whitespace in `str`: what the pattern
   * `\s` matches and what `str.strip()` removes.
   */
  predicate IsSpace(c: char) {
    var n := c as int;
    (9 <= n <= 13) || (28 <= n <= 32) || n == 0x85 || n == 0xA0 || n == 0x1680 ||
    (0x2000 <= n <= 0x200A) || n == 0x2028 || n == 0x2029 || n == 0x202F ||
    n == 0x205F || n == 0x3000
  }

  predicate IsAscii(c: char) {
    (c as int) < 128
  }

  /** Characters `clean_text` promises to keep: ASCII and not whitespace (control characters included). */
  predicate IsVisible(c: char) {
    IsAscii(c) && !IsSpace(c)
  }

  /** Characters the whitespace collapse never touches. */
  predicate NonSpace(c: char) {
    !IsSpace(c)
  }

  /** The visible characters of a text, in order. */
  function Visible(s: string): string {
    Filter(IsVisible, s)
  }

  /** `str.lstrip()`: drop the leading whitespace. */
  function TrimStart(s: string): string
    decreases |s|
  {
    if s != [] && IsSpace(s[0]) then TrimStart(s[1..]) else s
  }

  /** `str.rstrip()`: drop the trailing whitespace. */
  function TrimEnd(s: string): string
    decreases |s|
  {
    if s != [] && IsSpace(s[|s| - 1]) then TrimEnd(s[..|s| - 1]) else s
  }

  /** `str.strip()`. */
  function Strip(s: string): string {
    TrimEnd(TrimStart(s))
  }

  /**
   * `re.sub(r'\s+', ' ', s)`: every maximal whitespace run becomes a single
   * space. `afterSpace` says that a run has just been replaced, so further
   * whitespace belongs to it.
   */
  function Collapse(s: string, afterSpace: bool): string
    decreases |s|
  {
    if s == [] then []
    else if IsSpace(s[0]) then
      if afterSpace then Collapse(s[1..], true) else [' '] + Collapse(s[1..], true)
    else [s[0]] + Collapse(s[1..], false)
  }

  /** The left trim removes exactly the leading whitespace: a suffix remains that starts with a non-space. */
  lemma {:induction false} TrimStartSpec(s: string)
    ensures |TrimStart(s)| <= |s| && TrimStart(s) == s[|s| - |TrimStart(s)|..]
    ensures TrimStart(s) == [] || !IsSpace(TrimStart(s)[0])
    ensures forall i :: 0 <= i < |s| - |TrimStart(s)| ==> IsSpace(s[i])
    decreases |s|
  {
    if s != [] && IsSpace(s[0]) {
      TrimStartSpec(s[1..]);
    }
  }

  /** The right trim removes exactly the trailing whitespace: a prefix remains that ends in a non-space. */
  lemma {:induction false} TrimEndSpec(s: string)
    ensures |TrimEnd(s)| <= |s| && TrimEnd(s) == s[..|TrimEnd(s)|]
    ensures TrimEnd(s) == [] || !IsSpace(TrimEnd(s)[|TrimEnd(s)| - 1])
    ensures forall i :: |TrimEnd(s)| <= i < |s| ==> IsSpace(s[i])
    decreases |s|
  {
    if s != [] && IsSpace(s[|s| - 1]) {
      TrimEndSpec(s[..|s| - 1]);
    }
  }

  /** Every whitespace character of `r` is a plain space; every other character of `r` occurs in `s`. */
  predicate PlainSpacesFrom(r: string, s: string) {
    forall i :: 0 <= i < |r| ==> r[i] == ' ' || (!IsSpace(r[i]) && r[i] in s)
  }

  /** No two whitespace characters are adjacent. */
  predicate SingleRuns(r: string) {
    forall i :: 0 <= i < |r| - 1 ==> !(IsSpace(r[i]) && IsSpace(r[i + 1]))
  }

  /**
   * After the collapse every whitespace character is a plain space, no two
   * whitespace characters are adjacent, and every other character comes from
   * the input.
   */
  lemma {:induction false} CollapseSpec(s: string, afterSpace: bool)
    ensures PlainSpacesFrom(Collapse(s, afterSpace), s)
    ensures SingleRuns(Collapse(s, afterSpace))
    ensures afterSpace && Collapse(s, afterSpace) != [] ==> !IsSpace(Collapse(s, afterSpace)[0])
    decreases |s|
  {
    if s != [] {
      CollapseSpec(s[1..], IsSpace(s[0]));
      var rest := Collapse(s[1..], IsSpace(s[0]));
      assert forall c :: c in s[1..] ==> c in s;
      if IsSpace(s[0]) && afterSpace {
        assert Collapse(s, afterSpace) == rest;
      } else {
        var h := if IsSpace(s[0]) then ' ' else s[0];
        var r := [h] + rest;
        assert Collapse(s, afterSpace) == r;
        forall i | 0 <= i < |r| ensures r[i] == ' ' || (!IsSpace(r[i]) && r[i] in s) {
          if i > 0 { assert r[i] == rest[i - 1]; }
        }
        forall i | 0 <= i < |r| - 1 ensures !(IsSpace(r[i]) && IsSpace(r[i + 1])) {
          assert r[i + 1] == rest[i];
          if i > 0 { assert r[i] == rest[i - 1]; }
        }
      }
    }
  }

  function CollapseSpaces(s: string): string {
    Collapse(s, false)
  }

  /** `re.sub(r'[^\x00-\x7F]+', '', s)`: drop every non-ASCII character. */
  function DropNonAscii(s: string): string {
    Filter(IsAscii, s)
  }

  /** `clean_text`. */
  function CleanText(s: string): string {
    Strip(DropNonAscii(CollapseSpaces(s)))
  }

  /** `r` is the slice `s[i..j]`, and everything of `s` outside the slice is whitespace. */
  predicate TrimmedSlice(r: string, s: string, i: nat, j: nat) {
    i <= j <= |s| && r == s[i..j] &&
    (forall k :: 0 <= k < i ==> IsSpace(s[k])) &&
    (forall k :: j <= k < |s| ==> IsSpace(s[k]))
  }

  /** `strip()` returns a slice of its input and removes only whitespace around it. */
  lemma StripSlice(s: string)
    ensures exists i: nat, j: nat :: TrimmedSlice(Strip(s), s, i, j)
  {
    var t := TrimStart(s);
    TrimStartSpec(s);
    TrimEndSpec(t);
    var i := |s| - |t|;
    var j := i + |TrimEnd(t)|;
    assert Strip(s) == s[i..j];
    forall k | j <= k < |s| ensures IsSpace(s[k]) {
      assert s[k] == t[k - i];
    }
    assert TrimmedSlice(Strip(s), s, i, j);
  }

  /** Whitespace removed by the trims is invisible, so stripping keeps the visible text. */
  lemma TrimStartVisible(s: string)
    ensures Visible(TrimStart(s)) == Visible(s)
  {
    var t := TrimStart(s);
    TrimStartSpec(s);
    var k := |s| - |t|;
    assert s == s[..k] + t;
    FilterAppend(IsVisible, s[..k], t);
    FilterEmpty(IsVisible, s[..k]);
  }

  lemma TrimEndVisible(s: string)
    ensures Visible(TrimEnd(s)) == Visible(s)
  {
    var t := TrimEnd(s);
    TrimEndSpec(s);
    assert s == t + s[|t|..];
    FilterAppend(IsVisible, t, s[|t|..]);
    FilterEmpty(IsVisible, s[|t|..]);
  }

  /** The whitespace collapse keeps every non-whitespace character, in order, ASCII or not. */
  lemma {:induction false} CollapseVisible(s: string, afterSpace: bool)
    ensures Filter(NonSpace, Collapse(s, afterSpace)) == Filter(NonSpace, s)
    ensures Visible(Collapse(s, afterSpace)) == Visible(s)
    decreases |s|
  {
    if s != [] {
      assert s == [s[0]] + s[1..];
      FilterAppend(IsVisible, [s[0]], s[1..]);
      FilterAppend(NonSpace, [s[0]], s[1..]);
      CollapseVisible(s[1..], IsSpace(s[0]));
      var rest := Collapse(s[1..], IsSpace(s[0]));
      if IsSpace(s[0]) && !afterSpace {
        FilterAppend(IsVisible, [' '], rest);
        FilterAppend(NonSpace, [' '], rest);
      } else if !IsSpace(s[0]) {
        FilterAppend(IsVisible, [s[0]], rest);
        FilterAppend(NonSpace, [s[0]], rest);
      }
    }
  }


  lemma DropNonAsciiVisible(s: string)
    ensures Visible(DropNonAscii(s)) == Visible(s)
    decreases |s|
  {
    if s != [] {
      assert s == [s[0]] + s[1..];
      FilterAppend(IsVisible, [s[0]], s[1..]);
      DropNonAsciiVisible(s[1..]);
      if IsAscii(s[0]) {
        FilterAppend(IsVisible, [s[0]], DropNonAscii(s[1..]));
      }
    }
  }

  /**
   * The shape `clean_text` promises: only ASCII characters, every whitespace
   * character a plain space, and no whitespace at either end.
   */
  lemma CleanTextShape(s: string)
    ensures var r := CleanText(s);
      (forall i :: 0 <= i < |r| ==> IsAscii(r[i])) &&
      (forall i :: 0 <= i < |r| ==> IsSpace(r[i]) ==> r[i] == ' ') &&
      (r == [] || (!IsSpace(r[0]) && !IsSpace(r[|r| - 1])))
  {
    var c := CollapseSpaces(s);
    var d := DropNonAscii(c);
    var r := CleanText(s);
    CollapseSpec(s, false);
    StripSlice(d);
    TrimStartSpec(d);
    TrimEndSpec(TrimStart(d));
    FilterSubset(IsAscii, c);
    var t := TrimStart(d);
    var k := |d| - |t|;
    forall i | 0 <= i < |r| ensures IsAscii(r[i]) && (IsSpace(r[i]) ==> r[i] == ' ') {
      assert r[i] == t[i] == d[k + i];
      assert r[i] in d;
      assert r[i] in c;
    }
  }

  /**
   * Nothing but whitespace and non-ASCII characters is lost: the visible
   * characters of the result are those of the input, in the same order.
   */
  lemma CleanTextKeepsVisible(s: string)
    ensures Visible(CleanText(s)) == Visible(s)
  {
    var c := CollapseSpaces(s);
    var d := DropNonAscii(c);
    CollapseVisible(s, false);
    DropNonAsciiVisible(c);
    TrimStartVisible(d);
    TrimEndVisible(TrimStart(d));
  }

  /** The result is empty exactly when the input holds only whitespace and non-ASCII characters. */
  lemma CleanTextEmpty(s: string)
    ensures CleanText(s) == [] <==> forall i :: 0 <= i < |s| ==> IsSpace(s[i]) || !IsAscii(s[i])
  {
    var r := CleanText(s);
    CleanTextKeepsVisible(s);
    CleanTextShape(s);
    FilterEmpty(IsVisible, s);
    FilterEmpty(IsVisible, r);
    assert r != [] ==> IsVisible(r[0]);
  }

  /** No two adjacent spaces. */
  predicate SingleSpaced(s: string) {
    forall i :: 0 <= i < |s| - 1 ==> !(s[i] == ' ' && s[i + 1] == ' ')
  }

  lemma CollapseSpacesAscii(s: string)
    requires forall i :: 0 <= i < |s| ==> IsAscii(s[i])
    ensures var c := CollapseSpaces(s); forall i :: 0 <= i < |c| ==> IsAscii(c[i])
  {
    var c := Collapse(s, false);
    CollapseSpec(s, false);
    forall i | 0 <= i < |c| ensures IsAscii(c[i]) {
      if c[i] != ' ' {
        var j :| 0 <= j < |s| && s[j] == c[i];
      }
    }
  }

  lemma StripSingleSpaced(s: string)
    requires SingleSpaced(s)
    ensures SingleSpaced(Strip(s))
  {
    var t := TrimStart(s);
    var k := |s| - |t|;
    var r := TrimEnd(t);
    TrimStartSpec(s);
    TrimEndSpec(t);
    forall i | 0 <= i < |r| - 1 ensures !(r[i] == ' ' && r[i + 1] == ' ') {
      assert r[i] == t[i] == s[k + i];
      assert r[i + 1] == t[i + 1] == s[k + i + 1];
    }
  }

  /** On ASCII input no two spaces are adjacent in the result. */
  lemma CleanTextSingleSpacesOnAscii(s: string)
    requires forall i :: 0 <= i < |s| ==> IsAscii(s[i])
    ensures SingleSpaced(CleanText(s))
  {
    var c := Collapse(s, false);
    CollapseSpacesAscii(s);
    CollapseSpec(s, false);
    FilterAll(IsAscii, c);
    assert SingleSpaced(c);
    StripSingleSpaced(c);
  }

  /** Text that ends in a non-whitespace character leaves the collapse in its initial state. */
  lemma {:induction false} CollapseConcat(x: string, z: string, afterSpace: bool)
    requires x != [] && !IsSpace(x[|x| - 1])
    ensures Collapse(x + z, afterSpace) == Collapse(x, afterSpace) + Collapse(z, false)
    decreases |x|
  {
    assert (x + z)[0] == x[0];
    assert (x + z)[1..] == x[1..] + z;
    if |x| == 1 {
      assert x[1..] == [];
    } else {
      CollapseConcat(x[1..], z, IsSpace(x[0]));
    }
  }

  /** Whitespace that continues a run already replaced adds nothing. */
  lemma {:induction false} CollapseRunTail(w: string, y: string)
    requires forall i :: 0 <= i < |w| ==> IsSpace(w[i])
    requires y == [] || !IsSpace(y[0])
    ensures Collapse(w + y, true) == Collapse(y, false)
    decreases |w|
  {
    if w == [] {
      assert w + y == y;
    } else {
      assert (w + y)[0] == w[0];
      assert (w + y)[1..] == w[1..] + y;
      CollapseRunTail(w[1..], y);
    }
  }

  /**
   * A maximal whitespace run becomes exactly one space: the collapse of
   * `x + w + y` is the collapse of `x`, one space, and the collapse of `y`.
   */
  lemma CollapseRun(x: string, w: string, y: string)
    requires w != [] && forall i :: 0 <= i < |w| ==> IsSpace(w[i])
    requires x == [] || !IsSpace(x[|x| - 1])
    requires y == [] || !IsSpace(y[0])
    ensures CollapseSpaces(x + w + y) == CollapseSpaces(x) + " " + CollapseSpaces(y)
  {
    assert (w + y)[0] == w[0] && (w + y)[1..] == w[1..] + y;
    CollapseRunTail(w[1..], y);
    assert Collapse(w + y, false) == " " + Collapse(y, false);
    if x == [] {
      assert x + w + y == w + y;
    } else {
      assert x + w + y == x + (w + y);
      CollapseConcat(x, w + y, false);
    }
  }

  /** The collapse keeps a final non-whitespace character at the end. */
  lemma {:induction false} CollapseLast(x: string, afterSpace: bool)
    requires x != [] && !IsSpace(x[|x| - 1])
    ensures Collapse(x, afterSpace) != [] &&
      Collapse(x, afterSpace)[|Collapse(x, afterSpace)| - 1] == x[|x| - 1]
    decreases |x|
  {
    if |x| > 1 {
      CollapseLast(x[1..], IsSpace(x[0]));
    }
  }

  /** Leading whitespace is all in the first part when that part ends in a non-space. */
  lemma {:induction false} TrimStartAppend(a: string, b: string)
    requires a != [] && !IsSpace(a[|a| - 1])
    ensures TrimStart(a + b) == TrimStart(a) + b
    ensures TrimStart(a) != [] && TrimStart(a)[|TrimStart(a)| - 1] == a[|a| - 1]
    decreases |a|
  {
    assert (a + b)[0] == a[0];
    if IsSpace(a[0]) {
      assert (a + b)[1..] == a[1..] + b;
      TrimStartAppend(a[1..], b);
    }
  }

  /** Trailing whitespace is all in the last part when that part starts with a non-space. */
  lemma {:induction false} TrimEndPrepend(a: string, b: string)
    requires b != [] && !IsSpace(b[0])
    ensures TrimEnd(a + b) == a + TrimEnd(b)
    ensures TrimEnd(b) != [] && TrimEnd(b)[0] == b[0]
    decreases |b|
  {
    var n := |b| - 1;
    assert (a + b)[|a + b| - 1] == b[n];
    if IsSpace(b[n]) {
      assert (a + b)[..|a + b| - 1] == a + b[..n];
      TrimEndPrepend(a, b[..n]);
    }
  }

  /**
   * Whitespace between two kept characters becomes exactly one space:
   * `clean_text(x + w + y)` is `clean_text(x)`, a space and `clean_text(y)`
   * when `x` ends and `y` starts with an ASCII non-whitespace character.
   */
  lemma CleanTextRun(x: string, w: string, y: string)
    requires w != [] && forall i :: 0 <= i < |w| ==> IsSpace(w[i])
    requires x != [] && IsVisible(x[|x| - 1])
    requires y != [] && IsVisible(y[0])
    ensures CleanText(x + w + y) == CleanText(x) + " " + CleanText(y)
  {
    CollapseRun(x, w, y);
    var cx, cy := CollapseSpaces(x), CollapseSpaces(y);
    CollapseLast(x, false);
    assert cy == [y[0]] + Collapse(y[1..], false);
    FilterAppend(IsAscii, cx + " ", cy);
    FilterAppend(IsAscii, cx, " ");
    var a, b := DropNonAscii(cx), DropNonAscii(cy);
    assert DropNonAscii(" ") == " ";
    FilterSnoc(IsAscii, cx);
    assert a != [] && a[|a| - 1] == x[|x| - 1];
    assert b == [y[0]] + DropNonAscii(Collapse(y[1..], false));
    assert DropNonAscii(cx + " " + cy) == a + " " + b;
    assert a + " " + b == a + (" " + b);
    TrimStartAppend(a, " " + b);
    var t := TrimStart(a);
    assert t + (" " + b) == (t + " ") + b;
    TrimEndPrepend(t + " ", b);
    assert TrimEnd(t) == t;
    assert TrimStart(b) == b;
  }

  /** Whitespace in front of a text is dropped by `lstrip()`. */
  lemma {:induction false} TrimStartSpaces(w: string, x: string)
    requires forall i :: 0 <= i < |w| ==> IsSpace(w[i])
    ensures TrimStart(w + x) == TrimStart(x)
    decreases |w|
  {
    if w != [] {
      assert (w + x)[0] == w[0];
      assert (w + x)[1..] == w[1..] + x;
      TrimStartSpaces(w[1..], x);
    } else {
      assert w + x == x;
    }
  }

  /** Whitespace after a text is dropped by `rstrip()`. */
  lemma {:induction false} TrimEndSpaces(x: string, w: string)
    requires forall i :: 0 <= i < |w| ==> IsSpace(w[i])
    ensures TrimEnd(x + w) == TrimEnd(x)
    decreases |w|
  {
    if w != [] {
      var n := |x + w| - 1;
      assert (x + w)[n] == w[|w| - 1];
      assert (x + w)[..n] == x + w[..|w| - 1];
      TrimEndSpaces(x, w[..|w| - 1]);
    } else {
      assert x + w == x;
    }
  }

  /** Once `lstrip()` of a text stops at a visible character, what follows it is kept as is. */
  lemma {:induction false} TrimStartKeepsTail(x: string, w: string)
    requires TrimStart(x) != []
    ensures TrimStart(x + w) == TrimStart(x) + w
    decreases |x|
  {
    assert x != [];
    assert (x + w)[0] == x[0];
    if IsSpace(x[0]) {
      assert (x + w)[1..] == x[1..] + w;
      TrimStartKeepsTail(x[1..], w);
    }
  }

  /** `strip()` ignores whitespace added around its input. */
  lemma StripPadding(w: string, x: string, w': string)
    requires forall i :: 0 <= i < |w| ==> IsSpace(w[i])
    requires forall i :: 0 <= i < |w'| ==> IsSpace(w'[i])
    ensures Strip(w + x + w') == Strip(x)
  {
    assert w + x + w' == w + (x + w');
    TrimStartSpaces(w, x + w');
    if TrimStart(x) == [] {
      TrimStartSpec(x);
      var v := x + w';
      assert forall i :: 0 <= i < |v| ==> IsSpace(v[i]) by {
        forall i | 0 <= i < |v| ensures IsSpace(v[i]) {
          if i >= |x| { assert v[i] == w'[i - |x|]; }
        }
      }
      assert v + [] == v;
      TrimStartSpaces(v, []);
    } else {
      TrimStartKeepsTail(x, w');
      TrimEndSpaces(TrimStart(x), w');
    }
  }

  lemma CollapseSample()
    ensures CollapseSpaces("a \U{e9} b") == "a \U{e9} b"
  {
    var s4: string := "b";
    var s3: string := " " + s4;
    var s2: string := "\U{e9}" + s3;
    var s1: string := " " + s2;
    var s0: string := "a" + s1;
    assert s4[1..] == [] && s3[1..] == s4 && s2[1..] == s3 && s1[1..] == s2 && s0[1..] == s1;
    assert !IsSpace(s4[0]) && !IsSpace(s2[0]) && !IsSpace(s0[0]);
    assert IsSpace(s3[0]) && IsSpace(s1[0]);
    assert Collapse(s4, true) == s4;
    assert Collapse(s3, false) == s3;
    assert Collapse(s2, true) == s2;
    assert Collapse(s1, false) == s1;
    assert Collapse(s0, false) == s0;
    assert s0 == "a \U{e9} b";
  }

  lemma DropNonAsciiSample()
    ensures DropNonAscii("a \U{e9} b") == "a  b"
  {
    var s := "a \U{e9} b";
    assert s[1..] == " \U{e9} b";
    assert s[1..][1..] == "\U{e9} b";
    assert s[1..][1..][1..] == " b";
    assert DropNonAscii("b") == "b";
    assert DropNonAscii(" b") == " b";
    assert DropNonAscii("\U{e9} b") == " b";
    assert DropNonAscii(" \U{e9} b") == "  b";
  }

  /**
   * Non-ASCII removal runs after the whitespace collapse, so a non-ASCII
   * character between two spaces leaves a double space behind.
   */
  lemma CleanTextDoubleSpace()
    ensures CleanText("a \U{e9} b") == "a  b"
  {
    CollapseSample();
    DropNonAsciiSample();
    var r: string := "a  b";
    assert !IsSpace(r[0]) && !IsSpace(r[|r| - 1]);
    assert TrimStart(r) == r;
    assert TrimEnd(r) == r;
  }
}
