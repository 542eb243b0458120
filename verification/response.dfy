/**
 * The answer cleanup `clean_response`, which collapses a word repeated
 * consecutively into one occurrence. The text is modelled as the list of its
 * tokens between single spaces (Python's `s.split(' ')`), in which a run of
 * equal repeatable tokens becomes one token.
 */
module Response {

  /** Characters of the token class `[A-Za-z0-9.,%$]`. */
  predicate InTokenClass(c: char) {
    IsAlnum(c) || c == '.' || c == ',' || c == '%' || c == '$'
  }

  /** ASCII letters and digits: the word characters of the token class. */
  predicate IsAlnum(c: char) {
    ('A' <= c <= 'Z') || ('a' <= c <= 'z') || ('0' <= c <= '9')
  }

  /**
   * A token the pattern `\b[A-Za-z0-9.,%$]+\b` matches whole: only class
   * characters, and a word character at each end, so that both word
   * boundaries hold between it and the spaces around it.
   */
  predicate Repeatable(t: string) {
    |t| >= 1 && IsAlnum(t[0]) && IsAlnum(t[|t| - 1]) &&
    forall i :: 0 <= i < |t| ==> InTokenClass(t[i])
  }

  /** `s.split(' ')`: the pieces between single spaces, empty pieces included. */
  function Split(s: string): (r: seq<string>)
    ensures |r| >= 1
    ensures forall j :: 0 <= j < |r| ==> ' ' !in r[j]
    decreases |s|
  {
    if s == [] then [[]]
    else
      var rest := Split(s[1..]);
      if s[0] == ' ' then [[]] + rest else [[s[0]] + rest[0]] + rest[1..]
  }

  /** `' '.join(ts)`. */
  function Join(ts: seq<string>): string
    decreases |ts|
  {
    if |ts| == 0 then []
    else if |ts| == 1 then ts[0]
    else ts[0] + " " + Join(ts[1..])
  }

  /** No token is immediately followed by an equal repeatable token. */
  predicate NoRepeats(ts: seq<string>) {
    forall j :: 0 <= j < |ts| - 1 ==> !(Repeatable(ts[j]) && ts[j] == ts[j + 1])
  }

  /** Each run of equal repeatable tokens becomes a single token. */
  function Squash(ts: seq<string>): (r: seq<string>)
    ensures |r| <= |ts|
    ensures |ts| >= 1 ==> |r| >= 1 && r[0] == ts[0]
    ensures forall t :: t in r ==> t in ts
    decreases |ts|
  {
    if |ts| <= 1 then ts
    else if Repeatable(ts[0]) && ts[1] == ts[0] then Squash(ts[1..])
    else [ts[0]] + Squash(ts[1..])
  }

  /** `clean_response`. */
  function CleanResponse(s: string): string {
    Join(Squash(Split(s)))
  }

  /** Splitting and joining again gives back the text. */
  lemma {:induction false} JoinSplit(s: string)
    ensures Join(Split(s)) == s
    decreases |s|
  {
    if s != [] {
      var rest := Split(s[1..]);
      JoinSplit(s[1..]);
      if s[0] == ' ' {
        assert ([[]] + rest)[1..] == rest;
      } else if |rest| >= 2 {
        var r := [[s[0]] + rest[0]] + rest[1..];
        assert r[1..] == rest[1..];
      }
    }
  }

  lemma {:induction false} SplitNoSpace(t: string)
    requires ' ' !in t
    ensures Split(t) == [t]
    decreases |t|
  {
    if t != [] {
      SplitNoSpace(t[1..]);
      assert t == [t[0]] + t[1..];
    }
  }

  lemma {:induction false} SplitAppend(a: string, b: string)
    ensures Split(a + " " + b) == Split(a) + Split(b)
    decreases |a|
  {
    if a == [] {
      assert (a + " " + b)[1..] == b;
    } else {
      assert (a + " " + b)[1..] == a[1..] + " " + b;
      SplitAppend(a[1..], b);
    }
  }

  /** Joining and splitting again gives back tokens that hold no space. */
  lemma {:induction false} SplitJoin(ts: seq<string>)
    requires |ts| >= 1
    requires forall j :: 0 <= j < |ts| ==> ' ' !in ts[j]
    ensures Split(Join(ts)) == ts
    decreases |ts|
  {
    SplitNoSpace(ts[0]);
    if |ts| >= 2 {
      SplitJoin(ts[1..]);
      SplitAppend(ts[0], Join(ts[1..]));
      assert ts == [ts[0]] + ts[1..];
    }
  }

  lemma {:induction false} JoinAppend(a: seq<string>, b: seq<string>)
    requires |a| >= 1 && |b| >= 1
    ensures Join(a + b) == Join(a) + " " + Join(b)
    decreases |a|
  {
    if |a| >= 2 {
      assert (a + b)[1..] == a[1..] + b;
      JoinAppend(a[1..], b);
    }
  }

  /** After the cleanup no token is followed by an equal repeatable token. */
  lemma {:induction false} SquashNoRepeats(ts: seq<string>)
    ensures NoRepeats(Squash(ts))
    decreases |ts|
  {
    if |ts| >= 2 {
      SquashNoRepeats(ts[1..]);
      if !(Repeatable(ts[0]) && ts[1] == ts[0]) {
        var rest := Squash(ts[1..]);
        var r := [ts[0]] + rest;
        forall j | 0 <= j < |r| - 1 ensures !(Repeatable(r[j]) && r[j] == r[j + 1]) {
          if j > 0 {
            assert r[j] == rest[j - 1] && r[j + 1] == rest[j];
          }
        }
      }
    }
  }

  /** Every token of the input still occurs in the output. */
  lemma {:induction false} SquashKeepsTokens(ts: seq<string>)
    ensures forall t :: t in ts ==> t in Squash(ts)
    decreases |ts|
  {
    if |ts| >= 2 {
      SquashKeepsTokens(ts[1..]);
      assert forall t :: t in ts ==> t == ts[0] || t in ts[1..];
    }
  }

  /** Tokens without repeats are left alone. */
  lemma {:induction false} SquashFixed(ts: seq<string>)
    requires NoRepeats(ts)
    ensures Squash(ts) == ts
    decreases |ts|
  {
    if |ts| >= 2 {
      assert !(Repeatable(ts[0]) && ts[0] == ts[1]);
      assert NoRepeats(ts[1..]) by {
        forall j | 0 <= j < |ts| - 2 ensures !(Repeatable(ts[1..][j]) && ts[1..][j] == ts[1..][j + 1]) {
          assert ts[1..][j] == ts[j + 1] && ts[1..][j + 1] == ts[j + 2];
        }
      }
      SquashFixed(ts[1..]);
      assert ts == [ts[0]] + ts[1..];
    }
  }

  /** Two token lists that do not meet in a repeat are cleaned independently. */
  lemma {:induction false} SquashAppend(a: seq<string>, b: seq<string>)
    requires |a| >= 1 && |b| >= 1
    requires !(Repeatable(a[|a| - 1]) && a[|a| - 1] == b[0])
    ensures Squash(a + b) == Squash(a) + Squash(b)
    decreases |a|
  {
    assert (a + b)[1..] == a[1..] + b;
    if |a| >= 2 {
      SquashAppend(a[1..], b);
    }
  }

  /** The cleaned text has no repeated repeatable token. */
  lemma CleanResponseNoRepeats(s: string)
    ensures NoRepeats(Split(CleanResponse(s)))
  {
    var ts := Squash(Split(s));
    assert forall j :: 0 <= j < |ts| ==> ' ' !in ts[j] by {
      forall j | 0 <= j < |ts| ensures ' ' !in ts[j] {
        assert ts[j] in Split(s);
      }
    }
    SplitJoin(ts);
    SquashNoRepeats(Split(s));
  }

  /** A text without repeats comes back unchanged. */
  lemma CleanResponseFixed(s: string)
    requires NoRepeats(Split(s))
    ensures CleanResponse(s) == s
  {
    SquashFixed(Split(s));
    JoinSplit(s);
  }

  /** Cleaning twice is cleaning once. */
  lemma CleanResponseIdempotent(s: string)
    ensures CleanResponse(CleanResponse(s)) == CleanResponse(s)
  {
    CleanResponseNoRepeats(s);
    CleanResponseFixed(CleanResponse(s));
  }

  /**
   * A prefix without repeats whose last token is not repeatable is kept as
   * it is; the cleanup acts on what follows it alone.
   */
  lemma CleanResponseAfterPrefix(p: string, e: string)
    requires NoRepeats(Split(p))
    requires var ps := Split(p); !Repeatable(ps[|ps| - 1])
    ensures CleanResponse(p + " " + e) == p + " " + CleanResponse(e)
  {
    SplitAppend(p, e);
    SquashAppend(Split(p), Split(e));
    SquashFixed(Split(p));
    JoinAppend(Split(p), Squash(Split(e)));
    JoinSplit(p);
  }

  /** Three space-free words joined by single spaces split back into those words. */
  lemma SplitThree(a: string, b: string, c: string)
    requires ' ' !in a && ' ' !in b && ' ' !in c
    ensures Split(a + " " + b + " " + c) == [a, b, c]
  {
    SplitNoSpace(a);
    SplitNoSpace(b);
    SplitNoSpace(c);
    SplitAppend(b, c);
    SplitAppend(a, b + " " + c);
    assert a + " " + b + " " + c == a + " " + (b + " " + c);
  }

  /**
   * A prefix of three space-free words, no two neighbours equal and the last
   * one not repeatable, is kept by the cleanup, which acts on what follows.
   */
  lemma ThreeWordPrefix(a: string, b: string, c: string, e: string)
    requires ' ' !in a && ' ' !in b && ' ' !in c
    requires a != b && b != c && !Repeatable(c)
    ensures CleanResponse(a + " " + b + " " + c + " " + e) == a + " " + b + " " + c + " " + CleanResponse(e)
  {
    var p := a + " " + b + " " + c;
    SplitThree(a, b, c);
    assert NoRepeats(Split(p));
    CleanResponseAfterPrefix(p, e);
  }

  /** A repeated word collapses to one occurrence. */
  lemma CleanResponseWordRepeat()
    ensures CleanResponse("growth growth") == "growth"
  {
    var w: string := "growth";
    SplitAppend(w, w);
    SplitNoSpace(w);
    assert "growth growth" == w + " " + w;
    assert Repeatable(w) by {
      forall i | 0 <= i < |w| ensures InTokenClass(w[i]) {
        assert 'a' <= w[i] <= 'z';
      }
    }
    assert [w, w][1..] == [w];
    assert Squash([w, w]) == [w];
    assert Join([w]) == w;
  }

  /**
   * A token that ends in `%` has no word boundary before the next space, so
   * the pattern never matches it and "10% 10%" is kept.
   */
  lemma CleanResponsePercentKept()
    ensures CleanResponse("10% 10%") == "10% 10%"
  {
    var w: string := "10%";
    assert !Repeatable(w) by {
      assert !IsAlnum(w[|w| - 1]);
    }
    SplitAppend(w, w);
    SplitNoSpace(w);
    assert "10% 10%" == w + " " + w;
    CleanResponseFixed("10% 10%");
  }
}
