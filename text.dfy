/** Text utilities shared by the trampoline generators: comma-terminated and
    comma-separated lists, reading such lists back, splicing a fragment between
    a fixed prefix and suffix, and counting characters. */
module Text {

  datatype Option<T> = None | Some(value: T)

  /** The items in order, each followed by a comma: what a macro repetition
      `$( item ,)*` renders. */
  function Terminated(xs: seq<string>): string
  {
    if xs == [] then "" else xs[0] + "," + Terminated(xs[1..])
  }

  /** The items in order, separated by `sep` (no separator after the last item). */
  function Joined(xs: seq<string>, sep: string): string
  {
    if xs == [] then "" else if |xs| == 1 then xs[0] else xs[0] + sep + Joined(xs[1..], sep)
  }

  /** No item contains a comma, so the list can be read back unambiguously. */
  predicate CommaFree(xs: seq<string>)
  {
    forall i :: 0 <= i < |xs| ==> ',' !in xs[i]
  }

  /** The length of the field that starts `s`: the index of the first comma,
      or `|s|` when there is none. */
  function FieldEnd(s: string): (k: nat)
    ensures k <= |s|
    ensures forall j :: 0 <= j < k ==> s[j] != ','
    ensures k < |s| ==> s[k] == ','
  {
    if s == [] then 0 else if s[0] == ',' then 0 else 1 + FieldEnd(s[1..])
  }

  /** Reads a comma-terminated list back into its items; text after the last
      comma is not an item. */
  function Split(s: string): seq<string>
    decreases |s|
  {
    var k := FieldEnd(s);
    if k == |s| then [] else [s[..k]] + Split(s[k + 1..])
  }

  /** `s` without its space characters. */
  function Unspaced(s: string): (r: string)
    ensures ' ' !in r
    ensures |r| <= |s|
  {
    if s == [] then [] else (if s[0] == ' ' then [] else [s[0]]) + Unspaced(s[1..])
  }

  /** Reads a comma-separated list (spaces ignored) back into its items. */
  function SplitSeparated(s: string): seq<string>
  {
    if s == [] then [] else Split(Unspaced(s) + ",")
  }

  lemma {:induction false} FieldEndOfItem(a: string, b: string)
    requires ',' !in a
    ensures FieldEnd(a + "," + b) == |a|
  {
    if a != [] {
      assert (a + "," + b)[1..] == a[1..] + "," + b;
      FieldEndOfItem(a[1..], b);
    }
  }

  /** Reading back a comma-terminated list gives the items, in order. */
  lemma {:induction false} SplitTerminated(xs: seq<string>)
    requires CommaFree(xs)
    ensures Split(Terminated(xs)) == xs
  {
    if xs != [] {
      var s := Terminated(xs);
      assert s == xs[0] + "," + Terminated(xs[1..]);
      FieldEndOfItem(xs[0], Terminated(xs[1..]));
      assert s[..|xs[0]|] == xs[0];
      assert s[|xs[0]| + 1..] == Terminated(xs[1..]);
      assert CommaFree(xs[1..]) by {
        forall i | 0 <= i < |xs[1..]| ensures ',' !in xs[1..][i] {
          assert xs[1..][i] == xs[i + 1];
        }
      }
      SplitTerminated(xs[1..]);
    }
  }

  /** `t` occurs in `s` starting at index `k`. */
  predicate InfixAt(t: string, s: string, k: nat)
  {
    k + |t| <= |s| && s[k..k + |t|] == t
  }

  /** `t` occurs somewhere in `s`. */
  predicate IsInfix(t: string, s: string)
  {
    exists k: nat | k <= |s| :: InfixAt(t, s, k)
  }

  lemma InfixOfConcat(a: string, t: string, b: string)
    ensures InfixAt(t, a + t + b, |a|)
  {
    assert (a + t + b)[|a|..|a| + |t|] == t;
  }

  lemma PrefixOfConcat(a: string, b: string)
    ensures InfixAt(a, a + b, 0)
  {
    assert (a + b)[..|a|] == a;
  }

  lemma PrefixOfChain(a: string, b: string, c: string, d: string, e: string)
    ensures InfixAt(a, a + b + c + d + e, 0)
  {
    PrefixOfConcat(a, b + c + d + e);
    Regrouped(a, b, c, d, e);
  }

  lemma Regrouped(a: string, b: string, c: string, d: string, e: string)
    ensures a + b + c + d + e == a + (b + c + d + e)
  {
  }

  lemma PrefixTransitive(a: string, b: string, c: string)
    requires InfixAt(a, b, 0) && InfixAt(b, c, 0)
    ensures InfixAt(a, c, 0)
  {
    assert c[..|a|] == b[..|a|];
  }

  lemma InfixWidened(t: string, s: string, k: nat, a: string, b: string)
    requires InfixAt(t, s, k)
    ensures InfixAt(t, a + s + b, |a| + k)
  {
    assert (a + s + b)[|a| + k..|a| + k + |t|] == s[k..k + |t|];
  }

  lemma InfixWithin(t: string, s: string, a: string, b: string)
    requires IsInfix(t, s)
    ensures IsInfix(t, a + s + b)
  {
    var k: nat :| k <= |s| && InfixAt(t, s, k);
    InfixWidened(t, s, k, a, b);
  }

  /** The text of `t` strictly between the prefix `pre` and the suffix `post`,
      when `t` has that shape. */
  function Unsplice(pre: string, post: string, t: string): (r: Option<string>)
    ensures r.Some? <==> |pre| + |post| <= |t| && t[..|pre|] == pre && t[|t| - |post|..] == post
    ensures r.Some? ==> pre + r.value + post == t
  {
    if |pre| + |post| <= |t| && t[..|pre|] == pre && t[|t| - |post|..] == post then
      var mid := t[|pre|..|t| - |post|];
      assert pre + mid + post == t;
      Some(mid)
    else
      None
  }

  /** Splicing a fragment between a prefix and a suffix can be undone. */
  lemma UnspliceSplice(pre: string, mid: string, post: string)
    ensures Unsplice(pre, post, pre + mid + post) == Some(mid)
  {
    var t := pre + mid + post;
    assert t[..|pre|] == pre;
    assert t[|t| - |post|..] == post;
    assert t[|pre|..|t| - |post|] == mid;
  }

  /** `s` holds no brace. */
  predicate Braceless(s: string)
  {
    '{' !in s && '}' !in s
  }

  lemma BracelessCount(s: string)
    requires Braceless(s)
    ensures Count('{', s) == 0 && Count('}', s) == 0
  {
    CountAbsent('{', s);
    CountAbsent('}', s);
  }

  /** The number of occurrences of `c` in `s`. */
  function Count(c: char, s: string): nat
  {
    if s == [] then 0 else (if s[0] == c then 1 else 0) + Count(c, s[1..])
  }

  lemma {:induction false} CountConcat(c: char, a: string, b: string)
    ensures Count(c, a + b) == Count(c, a) + Count(c, b)
  {
    if a != [] {
      assert (a + b)[1..] == a[1..] + b;
      CountConcat(c, a[1..], b);
    } else {
      assert a + b == b;
    }
  }

  lemma {:induction false} CountAbsent(c: char, s: string)
    requires c !in s
    ensures Count(c, s) == 0
  {
    if s != [] {
      assert c !in s[1..];
      CountAbsent(c, s[1..]);
    }
  }

  lemma {:induction false} UnspacedConcat(a: string, b: string)
    ensures Unspaced(a + b) == Unspaced(a) + Unspaced(b)
  {
    if a == [] {
      assert a + b == b;
    } else {
      assert (a + b)[1..] == a[1..] + b;
      UnspacedConcat(a[1..], b);
    }
  }

  lemma {:induction false} UnspacedNoSpace(a: string)
    requires ' ' !in a
    ensures Unspaced(a) == a
  {
    if a != [] {
      assert ' ' !in a[1..];
      UnspacedNoSpace(a[1..]);
      assert a == [a[0]] + a[1..];
    }
  }

  /** Items that are non-empty and hold neither commas nor spaces. */
  predicate PlainItems(xs: seq<string>)
  {
    forall i :: 0 <= i < |xs| ==> xs[i] != [] && ',' !in xs[i] && ' ' !in xs[i]
  }

  lemma UnspacedStep(x: string, sep: string, rest: string)
    requires ' ' !in x && (sep == "," || sep == ", ")
    ensures Unspaced(x + sep + rest) == x + "," + Unspaced(rest)
  {
    UnspacedNoSpace(x);
    UnspacedConcat(x + sep, rest);
    UnspacedConcat(x, sep);
    assert Unspaced(sep) == ",";
  }

  lemma {:induction false} UnspacedJoined(xs: seq<string>, sep: string)
    requires xs != [] && PlainItems(xs) && (sep == "," || sep == ", ")
    ensures Unspaced(Joined(xs, sep)) + "," == Terminated(xs)
  {
    if |xs| == 1 {
      UnspacedNoSpace(xs[0]);
      assert Terminated(xs[1..]) == "";
    } else {
      assert PlainItems(xs[1..]) by {
        forall i | 0 <= i < |xs[1..]| ensures xs[1..][i] != [] && ',' !in xs[1..][i] && ' ' !in xs[1..][i] {
          assert xs[1..][i] == xs[i + 1];
        }
      }
      UnspacedJoined(xs[1..], sep);
      UnspacedStep(xs[0], sep, Joined(xs[1..], sep));
    }
  }

  /** Reading back a list written with `, ` or `,` between the items gives
      the items, in order. */
  lemma SplitJoined(xs: seq<string>, sep: string)
    requires PlainItems(xs) && (sep == "," || sep == ", ")
    ensures SplitSeparated(Joined(xs, sep)) == xs
  {
    if xs != [] {
      UnspacedJoined(xs, sep);
      assert Joined(xs, sep) != [] by {
        if |xs| > 1 {
          assert |Joined(xs, sep)| >= |xs[0]|;
        }
      }
      assert CommaFree(xs);
      SplitTerminated(xs);
    }
  }

  /** The strings of `ts` written one after the other. */
  function Concat(ts: seq<string>): string
  {
    if ts == [] then "" else Concat(ts[..|ts| - 1]) + ts[|ts| - 1]
  }

  lemma ConcatSnoc(ts: seq<string>, t: string)
    ensures Concat(ts + [t]) == Concat(ts) + t
  {
    assert (ts + [t])[..|ts|] == ts;
  }

  lemma ConcatAssociative(a: string, b: string, c: string)
    ensures a + b + c == a + (b + c)
  {
  }

  /** Each string of `ts` occurs in their concatenation. */
  lemma {:induction false} ConcatHasEach(ts: seq<string>, i: nat)
    requires i < |ts|
    ensures IsInfix(ts[i], Concat(ts))
  {
    var init := ts[..|ts| - 1];
    if i == |ts| - 1 {
      InfixOfConcat(Concat(init), ts[i], []);
      assert Concat(ts) == Concat(init) + ts[i] + [];
    } else {
      assert init[i] == ts[i];
      ConcatHasEach(init, i);
      var k: nat :| k <= |Concat(init)| && InfixAt(ts[i], Concat(init), k);
      InfixWidened(ts[i], Concat(init), k, [], ts[|ts| - 1]);
      assert Concat(ts) == [] + Concat(init) + ts[|ts| - 1];
    }
  }

  /** The elements of `xs` are pairwise distinct. */
  predicate Distinct<T(==)>(xs: seq<T>)
  {
    forall i, j :: 0 <= i < j < |xs| ==> xs[i] != xs[j]
  }
}
