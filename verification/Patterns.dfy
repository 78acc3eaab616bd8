/** Where a short pattern without quotes and backslashes occurs in escaped and quoted text. */
module Patterns {
  import opened Text

  /** The pattern stands at a place of the text. */
  predicate StandsAt(p: string, s: string, k: nat) { k <= |s| && p <= s[k..] }

  ghost predicate Plain(p: string) { p != "" && '\\' !in p && '\"' !in p }

  /** The pattern occurs nowhere in the text. */
  ghost predicate Nowhere(p: string, s: string) { forall k :: !StandsAt(p, s, k) }

  lemma FindIs(p: string, s: string, k: nat)
    requires k < |s| && StandsAt(p, s, k) && forall j :: 0 <= j < k ==> !StandsAt(p, s, j)
    ensures Find(s, p) == k
  {
    var f := Find(s, p);
    assert f < k ==> StandsAt(p, s, f);
  }

  lemma FindBefore(p: string, s: string, k: nat)
    requires k < |s| && StandsAt(p, s, k)
    ensures Find(s, p) <= k
  {
  }

  lemma FindStands(p: string, s: string)
    requires Find(s, p) < |s|
    ensures StandsAt(p, s, Find(s, p))
  {
  }

  lemma StandsWithin(p: string, s: string, k: nat)
    requires StandsAt(p, s, k)
    ensures k + |p| <= |s|
  {
  }

  /** No quote and no backslash stands inside an occurrence. */
  lemma Window(p: string, s: string, k: nat, i: nat)
    requires Plain(p) && StandsAt(p, s, k) && k <= i < k + |p|
    ensures i < |s| && s[i] != '\"' && s[i] != '\\'
  {
    assert s[k..][i - k] == p[i - k];
    assert p[i - k] in p;
  }

  lemma Later(p: string, head: string, tail: string, k: nat)
    ensures StandsAt(p, tail, k) <==> StandsAt(p, head + tail, |head| + k)
  {
    assert k <= |tail| ==> tail[k..] == (head + tail)[|head| + k..];
  }

  lemma Earlier(p: string, head: string, tail: string, k: nat)
    requires k + |p| <= |head|
    ensures StandsAt(p, head, k) <==> StandsAt(p, head + tail, k)
  {
    assert (head + tail)[k..] == head[k..] + tail;
  }

  lemma {:induction false} PlainPrefix(p: string, s: string)
    requires '\\' !in p && '\"' !in p
    ensures p <= Escape(s) <==> p <= s
  {
    if p != "" && s != "" {
      var head, tail := EscapeChar(s[0]), Escape(s[1..]);
      assert p[0] in p && p == [p[0]] + p[1..] && s == [s[0]] + s[1..];
      PlainPrefix(p[1..], s[1..]);
      if |head| == 1 {
        assert Escape(s) == [s[0]] + tail;
      } else {
        assert Escape(s)[0] == '\\';
      }
    }
  }

  /** Escaping makes no occurrence... */
  lemma {:induction false} EscapeMakesNone(p: string, s: string, k: nat) returns (j: nat)
    requires Plain(p) && StandsAt(p, Escape(s), k)
    ensures StandsAt(p, s, j)
  {
    PlainPrefix(p, s);
    if k == 0 {
      assert Escape(s)[0..] == Escape(s) && s[0..] == s;
      j := 0;
    } else {
      var head, tail := EscapeChar(s[0]), Escape(s[1..]);
      if k < |head| { Window(p, Escape(s), k, k); }
      Later(p, head, tail, k - |head|);
      j := EscapeMakesNone(p, s[1..], k - |head|);
      Later(p, [s[0]], s[1..], j);
      assert s == [s[0]] + s[1..];
      j := j + 1;
    }
  }

  /** ...and breaks none. */
  lemma {:induction false} EscapeBreaksNone(p: string, s: string, k: nat) returns (j: nat)
    requires Plain(p) && StandsAt(p, s, k)
    ensures StandsAt(p, Escape(s), j)
  {
    PlainPrefix(p, s);
    if k == 0 {
      assert Escape(s)[0..] == Escape(s) && s[0..] == s;
      j := 0;
    } else {
      assert s == [s[0]] + s[1..];
      Later(p, [s[0]], s[1..], k - 1);
      j := EscapeBreaksNone(p, s[1..], k - 1);
      Later(p, EscapeChar(s[0]), Escape(s[1..]), j);
      j := j + |EscapeChar(s[0])|;
    }
  }

  /** A pattern that occurs nowhere in a quoted text does not occur up to its closing quote. */
  lemma NotUpToQuote(p: string, inner: string, tail: string, k: nat)
    requires Plain(p) && Nowhere(p, inner)
    requires tail != "" && tail[0] == '\"' && k <= |inner| + 1
    ensures !StandsAt(p, "\"" + inner + tail, k)
  {
    var line := "\"" + inner + tail;
    var q: nat := |inner| + 1;
    assert line[0] == '\"' && line[q] == tail[0];
    if StandsAt(p, line, k) {
      if k == 0 {
        Window(p, line, k, 0);
      } else if k + |p| <= q {
        assert line == "\"" + (inner + tail);
        Later(p, "\"", inner + tail, k - 1);
        Earlier(p, inner, tail, k - 1);
      } else {
        Window(p, line, k, q);
      }
    }
  }

  /** The first occurrence behind the closing quote is the first of all. */
  lemma FirstAfterQuote(p: string, inner: string, tail: string)
    requires Plain(p) && Nowhere(p, inner)
    requires |tail| > 1 && tail[0] == '\"' && p <= tail[1..]
    ensures Find("\"" + inner + tail, p) == |inner| + 2
  {
    var line := "\"" + inner + tail;
    forall k | 0 <= k < |inner| + 2 ensures !StandsAt(p, line, k) {
      NotUpToQuote(p, inner, tail, k);
    }
    assert line[|inner| + 2..] == tail[1..];
    FindIs(p, line, |inner| + 2);
  }
}
