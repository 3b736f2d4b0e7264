/** The string operations the configuration parser and the name lookup are built from. */
module Strings {

  function LowerChar(c: char): char {
    if 'A' <= c <= 'Z' then c - 'A' + 'a' else c
  }

  function Lower(s: string): (r: string)
    ensures |r| == |s|
    ensures forall i :: 0 <= i < |s| ==> r[i] == LowerChar(s[i])
  {
    seq(|s|, i requires 0 <= i < |s| => LowerChar(s[i]))
  }

  /** Equal but for the case of ASCII letters. */
  predicate SameFold(s: string, t: string) {
    Lower(s) == Lower(t)
  }

  predicate SameFoldAll(a: seq<string>, b: seq<string>) {
    |a| == |b| && forall k :: 0 <= k < |a| ==> SameFold(a[k], b[k])
  }

  function TrimPrefix(s: string, p: string): string {
    if p <= s then s[|p|..] else s
  }

  /** The first position at which `sep` occurs in `s`, or `|s|` when it does not occur. */
  function IndexOf(s: string, sep: string): (i: nat)
    requires sep != ""
    ensures i <= |s|
  {
    if s == "" || sep <= s then 0 else 1 + IndexOf(s[1..], sep)
  }

  lemma {:induction false} IndexOfMeans(s: string, sep: string)
    requires sep != ""
    ensures IndexOf(s, sep) < |s| ==> sep <= s[IndexOf(s, sep)..]
    ensures forall j :: 0 <= j < IndexOf(s, sep) ==> !(sep <= s[j..])
  {
    assert s[0..] == s;
    if s != "" && !(sep <= s) {
      IndexOfMeans(s[1..], sep);
      assert forall j :: 0 < j <= |s| ==> s[j..] == s[1..][j - 1..];
    }
  }

  /** What follows the first label separator; empty when there is none. */
  function AfterDot(s: string): (r: string)
    ensures s != "" ==> |r| < |s|
  {
    var i := IndexOf(s, ".");
    if i < |s| then s[i + 1..] else ""
  }

  /** `strings.Split` by a single character: always at least one piece. */
  function Split(s: string, c: char): (r: seq<string>)
    ensures |r| >= 1
    decreases |s|
  {
    var i := IndexOf(s, [c]);
    if i < |s| then [s[..i]] + Split(s[i + 1..], c) else [s]
  }

  predicate IsSpace(c: char) {
    c == ' ' || '\t' <= c <= '\r'
  }

  predicate AllSpace(s: string) {
    forall i :: 0 <= i < |s| ==> IsSpace(s[i])
  }

  /** `strings.Fields`: the maximal runs of characters that are not white space. */
  function Fields(s: string): seq<string> {
    FieldsFrom(s, "")
  }

  function FieldsFrom(s: string, current: string): seq<string> {
    if s == "" then (if current == "" then [] else [current])
    else if IsSpace(s[0]) then (if current == "" then [] else [current]) + FieldsFrom(s[1..], "")
    else FieldsFrom(s[1..], current + [s[0]])
  }

  predicate NoLetters(s: string) {
    forall i :: 0 <= i < |s| ==> !('a' <= s[i] <= 'z') && !('A' <= s[i] <= 'Z')
  }

  /** A separator without letters occurs at the same place in strings that differ only in case. */
  lemma IndexOfFold(s: string, t: string, sep: string)
    requires SameFold(s, t)
    requires sep != "" && NoLetters(sep)
    ensures IndexOf(s, sep) == IndexOf(t, sep)
  {
    FoldPrefixes(s, t, sep);
    FoldPrefixes(t, s, sep);
    IndexOfMeans(s, sep);
    IndexOfMeans(t, sep);
  }

  lemma FoldPrefixes(s: string, t: string, sep: string)
    requires SameFold(s, t)
    requires NoLetters(sep)
    ensures |s| == |t|
    ensures forall j :: 0 <= j <= |s| && sep <= s[j..] ==> sep <= t[j..]
  {
    assert |Lower(s)| == |Lower(t)|;
    forall j | 0 <= j <= |s| && sep <= s[j..]
      ensures sep <= t[j..]
    {
      forall k | 0 <= k < |sep|
        ensures t[j..][k] == sep[k]
      {
        assert s[j..][k] == sep[k];
        assert Lower(s)[j + k] == Lower(t)[j + k];
        assert LowerChar(t[j + k]) == LowerChar(sep[k]);
      }
    }
  }

  lemma FoldSlice(s: string, t: string, i: nat, j: nat)
    requires SameFold(s, t) && i <= j <= |s|
    ensures |s| == |t| && SameFold(s[i..j], t[i..j])
  {
    assert |Lower(s)| == |Lower(t)|;
    forall k | 0 <= k < j - i
      ensures Lower(s[i..j])[k] == Lower(t[i..j])[k]
    {
      assert Lower(s)[i + k] == Lower(t)[i + k];
    }
    assert Lower(s[i..j]) == Lower(t[i..j]);
  }

  lemma {:induction false} SplitFold(s: string, t: string, c: char)
    requires SameFold(s, t)
    requires NoLetters([c])
    ensures SameFoldAll(Split(s, c), Split(t, c))
    decreases |s|
  {
    IndexOfFold(s, t, [c]);
    var i := IndexOf(s, [c]);
    assert |s| == |t| by { FoldSlice(s, t, 0, 0); }
    if i < |s| {
      FoldSlice(s, t, 0, i);
      FoldSlice(s, t, i + 1, |s|);
      assert s[i + 1..|s|] == s[i + 1..] && t[i + 1..|s|] == t[i + 1..];
      SplitFold(s[i + 1..], t[i + 1..], c);
      assert s[0..i] == s[..i] && t[0..i] == t[..i];
    }
  }

  // What determines these operations on every string.

  /** Equality up to case, character by character. */
  lemma SameFoldMeans(s: string, t: string)
    ensures SameFold(s, t) <==>
            && |s| == |t|
            && forall i :: 0 <= i < |s| ==>
                 || s[i] == t[i]
                 || ('A' <= s[i] <= 'Z' && t[i] as int == s[i] as int + 32)
                 || ('A' <= t[i] <= 'Z' && s[i] as int == t[i] as int + 32)
  {
    if SameFold(s, t) {
      assert |Lower(s)| == |Lower(t)|;
      forall i | 0 <= i < |s| ensures LowerChar(s[i]) == LowerChar(t[i]) {
        assert Lower(s)[i] == Lower(t)[i];
      }
    }
  }

  lemma IndexOfAt(s: string, sep: string, i: nat)
    requires sep != "" && i < |s| && sep <= s[i..] && forall j :: 0 <= j < i ==> !(sep <= s[j..])
    ensures IndexOf(s, sep) == i
  {
    IndexOfMeans(s, sep);
  }

  /** The position of a character that does not occur before it. */
  lemma IndexOfChar(a: string, c: char, b: string)
    requires c !in a
    ensures IndexOf(a + [c] + b, [c]) == |a|
    ensures IndexOf(a, [c]) == |a|
  {
    var s := a + [c] + b;
    assert s[|a|..] == [c] + b;
    forall j | 0 <= j < |a| ensures !([c] <= s[j..]) && !([c] <= a[j..]) {
      assert s[j..][0] == a[j] == a[j..][0] && a[j] in a;
    }
    IndexOfAt(s, [c], |a|);
    IndexOfMeans(a, [c]);
  }

  lemma SplitWhole(s: string, c: char)
    requires c !in s
    ensures Split(s, c) == [s]
  {
    IndexOfChar(s, c, "");
  }

  lemma SplitFirst(a: string, c: char, b: string)
    requires c !in a
    ensures Split(a + [c] + b, c) == [a] + Split(b, c)
  {
    var s := a + [c] + b;
    IndexOfChar(a, c, b);
    assert s[..|a|] == a && s[|a| + 1..] == b;
  }

  /** A separator parts the pieces of what is on its two sides. */
  lemma {:induction false} SplitConcat(a: string, c: char, b: string)
    ensures Split(a + [c] + b, c) == Split(a, c) + Split(b, c)
    decreases |a|
  {
    if c !in a {
      SplitFirst(a, c, b);
      SplitWhole(a, c);
    } else {
      var i := FirstAt(a, c);
      var first, rest := a[..i], a[i + 1..];
      assert a == first + [c] + rest && a + [c] + b == first + [c] + (rest + [c] + b);
      SplitFirst(first, c, rest);
      SplitFirst(first, c, rest + [c] + b);
      SplitConcat(rest, c, b);
    }
  }

  lemma {:induction false} FirstAt(s: string, c: char) returns (i: nat)
    requires c in s
    ensures i < |s| && s[i] == c && c !in s[..i]
  {
    if s[0] == c {
      i := 0;
    } else {
      i := FirstAt(s[1..], c);
      i := i + 1;
      assert s[..i] == [s[0]] + s[1..][..i - 1];
    }
  }

  predicate NoSpace(s: string) {
    forall i :: 0 <= i < |s| ==> !IsSpace(s[i])
  }

  lemma {:induction false} FieldsFromWhole(s: string, current: string)
    requires NoSpace(s)
    ensures FieldsFrom(s, current) == if current + s == "" then [] else [current + s]
  {
    if s == "" {
      assert current + s == current;
    } else {
      FieldsFromWhole(s[1..], current + [s[0]]);
      assert current + [s[0]] + s[1..] == current + s;
    }
  }

  lemma FieldsWhole(s: string)
    requires NoSpace(s) && s != ""
    ensures Fields(s) == [s]
  {
    FieldsFromWhole(s, "");
    assert "" + s == s;
  }

  lemma {:induction false} FieldsFromConcat(a: string, w: char, b: string, current: string)
    requires IsSpace(w)
    ensures FieldsFrom(a + [w] + b, current) == FieldsFrom(a, current) + FieldsFrom(b, "")
  {
    var s := a + [w] + b;
    if a == "" {
      assert s == [w] + b && s[1..] == b;
    } else {
      assert s[0] == a[0] && s[1..] == a[1..] + [w] + b;
      FieldsFromConcat(a[1..], w, b, if IsSpace(a[0]) then "" else current + [a[0]]);
    }
  }

  /** White space parts the fields of what is on its two sides. */
  lemma FieldsConcat(a: string, w: char, b: string)
    requires IsSpace(w)
    ensures Fields(a + [w] + b) == Fields(a) + Fields(b)
  {
    FieldsFromConcat(a, w, b, "");
  }
}
