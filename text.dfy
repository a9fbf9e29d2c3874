/** The few Python string operations the pipeline relies on, with the
    meaning CPython gives them: `s.split(sep)` for a one-character
    separator, `sep.join(parts)`, `s.split()` on whitespace,
    `s.replace(a, b)` for single characters, `str(n)` for a non-negative
    integer and `int(s)` on a numeral. */
module Text {
  import opened Wrappers

  /** `s.split(sep)`: the pieces between the occurrences of `sep`, in order.
      There is always at least one piece (`"".split("/") == [""]`). */
  function Split(s: string, sep: char): (parts: seq<string>)
    ensures |parts| >= 1
  {
    if s == [] then [[]]
    else
      var rest := Split(s[1..], sep);
      if s[0] == sep then [[]] + rest
      else [[s[0]] + rest[0]] + rest[1..]
  }

  /** No piece holds the separator, and the first piece is the prefix of `s`
      up to the first `sep`. */
  lemma {:induction false} SplitPieces(s: string, sep: char)
    ensures forall k :: 0 <= k < |Split(s, sep)| ==> sep !in Split(s, sep)[k]
    ensures var first := Split(s, sep)[0];
            |first| <= |s| && s[..|first|] == first && (|first| < |s| ==> s[|first|] == sep)
  {
    if s != [] {
      SplitPieces(s[1..], sep);
      var rest := Split(s[1..], sep);
      if s[0] != sep {
        var parts := [[s[0]] + rest[0]] + rest[1..];
        assert forall k :: 1 <= k < |parts| ==> parts[k] == rest[k];
        assert s[..|parts[0]|] == [s[0]] + s[1..][..|rest[0]|];
      }
    }
  }

  /** `sep.join(parts)`. */
  function Join(sep: string, parts: seq<string>): string
  {
    if parts == [] then []
    else if |parts| == 1 then parts[0]
    else parts[0] + sep + Join(sep, parts[1..])
  }

  lemma {:induction false} SplitWithoutSeparator(s: string, sep: char)
    requires sep !in s
    ensures Split(s, sep) == [s]
  {
    if s != [] {
      SplitWithoutSeparator(s[1..], sep);
      assert [s[0]] + s[1..] == s;
    }
  }

  /** Splitting distributes over an occurrence of the separator. */
  lemma {:induction false} SplitAround(x: string, y: string, sep: char)
    ensures Split(x + [sep] + y, sep) == Split(x, sep) + Split(y, sep)
  {
    if x == [] {
      assert x + [sep] + y == [sep] + y;
      assert ([sep] + y)[1..] == y;
    } else {
      assert (x + [sep] + y)[0] == x[0];
      assert (x + [sep] + y)[1..] == x[1..] + [sep] + y;
      SplitAround(x[1..], y, sep);
    }
  }

  /** Joining the pieces of a split with the separator gives back the string. */
  lemma {:induction false} JoinSplit(s: string, sep: char)
    ensures Join([sep], Split(s, sep)) == s
  {
    if s != [] {
      JoinSplit(s[1..], sep);
      var rest := Split(s[1..], sep);
      if s[0] == sep {
        assert ([[]] + rest)[1..] == rest;
        assert Join([sep], [[]] + rest) == [sep] + Join([sep], rest);
        assert [s[0]] + s[1..] == s;
      } else if |rest| == 1 {
        assert [s[0]] + s[1..] == s;
      } else {
        var parts := [[s[0]] + rest[0]] + rest[1..];
        assert parts[1..] == rest[1..];
        assert Join([sep], rest) == rest[0] + [sep] + Join([sep], rest[1..]);
        assert [s[0]] + s[1..] == s;
      }
    }
  }

  /** Splitting a join of separator-free pieces gives back the pieces. */
  lemma {:induction false} SplitJoin(parts: seq<string>, sep: char)
    requires |parts| >= 1
    requires forall k :: 0 <= k < |parts| ==> sep !in parts[k]
    ensures Split(Join([sep], parts), sep) == parts
  {
    SplitWithoutSeparator(parts[0], sep);
    if |parts| > 1 {
      SplitJoin(parts[1..], sep);
      SplitAround(parts[0], Join([sep], parts[1..]), sep);
      assert [parts[0]] + parts[1..] == parts;
    }
  }

  /** `s.split(sep)[-1]`: the text after the last `sep` (all of `s` when
      there is none). */
  function LastComponent(s: string, sep: char): string
  {
    var parts := Split(s, sep);
    parts[|parts| - 1]
  }

  lemma LastComponentHasNoSeparator(s: string, sep: char)
    ensures sep !in LastComponent(s, sep)
  {
    SplitPieces(s, sep);
  }

  lemma LastComponentAfter(x: string, y: string, sep: char)
    requires sep !in y
    ensures LastComponent(x + [sep] + y, sep) == y
  {
    SplitAround(x, y, sep);
    SplitWithoutSeparator(y, sep);
  }

  lemma LastComponentOfPlain(y: string, sep: char)
    requires sep !in y
    ensures LastComponent(y, sep) == y
  {
    SplitWithoutSeparator(y, sep);
  }

  /** `s.split(sep)[0]`: the prefix of `s` before its first `sep`. */
  function FirstComponent(s: string, sep: char): string
  {
    Split(s, sep)[0]
  }

  /** The first component is the longest prefix of `s` without `sep`. */
  lemma FirstComponentIsPrefix(s: string, sep: char)
    ensures var first := FirstComponent(s, sep);
            sep !in first && |first| <= |s| && s[..|first|] == first && (|first| < |s| ==> s[|first|] == sep)
  {
    SplitPieces(s, sep);
  }

  predicate EndsWith(s: string, suffix: string)
  {
    |suffix| <= |s| && s[|s| - |suffix|..] == suffix
  }

  predicate IsDigit(c: char)
  {
    '0' <= c <= '9'
  }

  function DigitChar(d: nat): (c: char)
    requires d < 10
    ensures IsDigit(c) && c as int - '0' as int == d
  {
    (d + '0' as int) as char
  }

  /** `str(n)`: the decimal numeral of `n`. */
  function NatToString(n: nat): (s: string)
    ensures |s| >= 1
  {
    if n < 10 then [DigitChar(n)] else NatToString(n / 10) + [DigitChar(n % 10)]
  }

  /** `str(n)` is made of digits and starts with `0` only for `n == 0`. */
  lemma {:induction false} NatToStringDigits(n: nat)
    ensures forall k :: 0 <= k < |NatToString(n)| ==> IsDigit(NatToString(n)[k])
    ensures NatToString(n)[0] == '0' <==> n == 0
  {
    if n >= 10 {
      NatToStringDigits(n / 10);
      assert NatToString(n)[0] == NatToString(n / 10)[0];
    }
  }

  function DigitValue(c: char): (d: nat)
    requires IsDigit(c)
    ensures d < 10
  {
    c as int - '0' as int
  }

  function DecimalValue(s: string): nat
    requires forall k :: 0 <= k < |s| ==> IsDigit(s[k])
  {
    if s == [] then 0 else 10 * DecimalValue(s[..|s| - 1]) + DigitValue(s[|s| - 1])
  }

  /** `int(s)` on a numeral of ASCII digits; `None` where Python raises
      `ValueError`. */
  function ParseDecimal(s: string): Option<nat>
  {
    if s != [] && forall k :: 0 <= k < |s| ==> IsDigit(s[k]) then Some(DecimalValue(s)) else None
  }

  /** `int(str(n)) == n`. */
  lemma {:induction false} ParseNatToString(n: nat)
    ensures ParseDecimal(NatToString(n)) == Some(n)
  {
    NatToStringDigits(n);
    if n >= 10 {
      ParseNatToString(n / 10);
      var s := NatToString(n);
      assert s[..|s| - 1] == NatToString(n / 10);
      assert s[|s| - 1] == DigitChar(n % 10);
      assert DecimalValue(s) == 10 * (n / 10) + n % 10;
    }
  }

  lemma NatToStringInjective(m: nat, n: nat)
    ensures NatToString(m) == NatToString(n) <==> m == n
  {
    ParseNatToString(m);
    ParseNatToString(n);
  }

  /** The characters `str.isspace()` accepts. */
  predicate IsSpace(c: char)
  {
    c == ' ' || ('\t' <= c <= '\r') || ('\U{1c}' <= c <= '\U{1f}') || c == '\U{85}' || c == '\U{a0}'
    || c == '\U{1680}' || ('\U{2000}' <= c <= '\U{200a}') || c == '\U{2028}' || c == '\U{2029}'
    || c == '\U{202f}' || c == '\U{205f}' || c == '\U{3000}'
  }

  function TrimLeft(s: string): (t: string)
    ensures |t| <= |s| && t == s[|s| - |t|..]
    ensures t == [] || !IsSpace(t[0])
  {
    if s != [] && IsSpace(s[0]) then TrimLeft(s[1..]) else s
  }

  function WordLength(s: string): (n: nat)
    ensures n <= |s|
  {
    if s == [] || IsSpace(s[0]) then 0 else 1 + WordLength(s[1..])
  }

  /** The first `WordLength(s)` characters are not whitespace, and the one
      after them is. */
  lemma {:induction false} WordLengthRun(s: string)
    ensures forall k :: 0 <= k < WordLength(s) ==> !IsSpace(s[k])
    ensures WordLength(s) < |s| ==> IsSpace(s[WordLength(s)])
  {
    if s != [] && !IsSpace(s[0]) {
      WordLengthRun(s[1..]);
    }
  }

  /** `s.split()`: the maximal runs of non-whitespace characters, in order. */
  function Words(s: string): seq<string>
    decreases |s|
  {
    var t := TrimLeft(s);
    var n := WordLength(t);
    if n == 0 then [] else [t[..n]] + Words(t[n..])
  }

  predicate IsWord(w: string)
  {
    w != [] && forall j :: 0 <= j < |w| ==> !IsSpace(w[j])
  }

  /** Every piece of `s.split()` is a non-empty run without whitespace. */
  lemma {:induction false} WordsAreWords(s: string)
    ensures forall k :: 0 <= k < |Words(s)| ==> IsWord(Words(s)[k])
    decreases |s|
  {
    hide IsSpace, TrimLeft, WordLength;
    var t := TrimLeft(s);
    var n := WordLength(t);
    if n > 0 {
      WordsAreWords(t[n..]);
      assert Words(s) == [t[..n]] + Words(t[n..]);
      FirstWordIsWord(t);
      hide Words, IsWord;
      AllWordsCons(t[..n], Words(t[n..]));
    }
  }

  lemma FirstWordIsWord(t: string)
    requires WordLength(t) > 0
    ensures IsWord(t[..WordLength(t)])
  {
    hide IsSpace;
    var w := t[..WordLength(t)];
    WordLengthRun(t);
    assert forall j :: 0 <= j < |w| ==> w[j] == t[j];
  }

  lemma AllWordsCons(w: string, rest: seq<string>)
    requires IsWord(w)
    requires forall k :: 0 <= k < |rest| ==> IsWord(rest[k])
    ensures forall k :: 0 <= k < |[w] + rest| ==> IsWord(([w] + rest)[k])
  {
    hide IsWord;
    forall k | 0 <= k < |[w] + rest| ensures IsWord(([w] + rest)[k]) {
      if k > 0 {
        assert ([w] + rest)[k] == rest[k - 1];
      }
    }
  }

  lemma {:induction false} WordLengthOfWord(w: string, tail: string)
    requires forall j :: 0 <= j < |w| ==> !IsSpace(w[j])
    requires tail == [] || IsSpace(tail[0])
    ensures WordLength(w + tail) == |w|
  {
    hide IsSpace;
    if w != [] {
      assert (w + tail)[1..] == w[1..] + tail;
      WordLengthOfWord(w[1..], tail);
    } else {
      assert w + tail == tail;
    }
  }

  lemma WordsOfWord(w: string)
    requires IsWord(w)
    ensures Words(w) == [w]
  {
    WordLengthOfWord(w, []);
    assert w + [] == w;
    assert w[..|w|] == w && w[|w|..] == [];
  }

  lemma WordsOfWordThenSpace(w: string, rest: string)
    requires IsWord(w)
    ensures Words(w + " " + rest) == [w] + Words(rest)
  {
    var s := w + " " + rest;
    assert s == w + (" " + rest);
    WordLengthOfWord(w, " " + rest);
    assert s[..|w|] == w && s[|w|..] == " " + rest;
    assert TrimLeft(" " + rest) == TrimLeft(rest) by { assert (" " + rest)[1..] == rest; }
  }

  lemma WordsOfEmpty()
    ensures Words([]) == []
  {
  }

  /** Splitting words joined by single spaces gives back the words. */
  lemma {:induction false} WordsOfJoined(words: seq<string>)
    requires forall k :: 0 <= k < |words| ==> IsWord(words[k])
    ensures Words(Join(" ", words)) == words
  {
    hide Words, IsSpace;
    if words == [] {
      WordsOfEmpty();
    } else if |words| == 1 {
      WordsOfWord(words[0]);
    } else {
      var tail := words[1..];
      assert forall k :: 0 <= k < |tail| ==> tail[k] == words[k + 1];
      var rest := Join(" ", tail);
      assert Join(" ", words) == words[0] + " " + rest;
      WordsOfJoined(tail);
      WordsOfWordThenSpace(words[0], rest);
      assert [words[0]] + tail == words;
    }
  }

  /** A character absent from `s` is absent from each of its words. */
  lemma {:induction false} WordsAvoid(s: string, c: char)
    requires c !in s
    ensures forall k :: 0 <= k < |Words(s)| ==> c !in Words(s)[k]
    decreases |s|
  {
    hide IsSpace, TrimLeft, WordLength;
    var t := TrimLeft(s);
    var n := WordLength(t);
    if n > 0 {
      assert c !in t[..n] && c !in t[n..];
      WordsAvoid(t[n..], c);
      assert Words(s) == [t[..n]] + Words(t[n..]);
      hide Words;
      forall k | 0 <= k < |[t[..n]] + Words(t[n..])| ensures c !in ([t[..n]] + Words(t[n..]))[k] {
        if k > 0 {
          assert ([t[..n]] + Words(t[n..]))[k] == Words(t[n..])[k - 1];
        }
      }
    }
  }

  predicate NoSpace(s: string)
  {
    forall j :: 0 <= j < |s| ==> !IsSpace(s[j])
  }

  lemma NoSpaceConcat(a: string, b: string)
    requires NoSpace(a) && NoSpace(b)
    ensures NoSpace(a + b)
  {
    hide IsSpace;
    forall j | 0 <= j < |a + b| ensures !IsSpace((a + b)[j]) {
      if j >= |a| {
        assert (a + b)[j] == b[j - |a|];
      }
    }
  }

  /** Pieces and a separator without whitespace join into text without any. */
  lemma {:induction false} JoinNoSpace(sep: string, parts: seq<string>)
    requires NoSpace(sep)
    requires forall k :: 0 <= k < |parts| ==> NoSpace(parts[k])
    ensures NoSpace(Join(sep, parts))
  {
    if |parts| > 1 {
      var tail := parts[1..];
      assert forall k :: 0 <= k < |tail| ==> tail[k] == parts[k + 1];
      JoinNoSpace(sep, tail);
      hide NoSpace;
      NoSpaceConcat(parts[0], sep);
      NoSpaceConcat(parts[0] + sep, Join(sep, tail));
    }
  }

  /** `s.replace(from, to)` for one-character `from` and `to`. */
  function ReplaceChar(s: string, from: char, to: char): string
  {
    if s == [] then [] else [if s[0] == from then to else s[0]] + ReplaceChar(s[1..], from, to)
  }

  /** Each `from` becomes `to`; every other character stays where it was. */
  lemma {:induction false} ReplaceCharAt(s: string, from: char, to: char)
    ensures |ReplaceChar(s, from, to)| == |s|
    ensures forall k :: 0 <= k < |s| ==> ReplaceChar(s, from, to)[k] == if s[k] == from then to else s[k]
  {
    if s != [] {
      ReplaceCharAt(s[1..], from, to);
    }
  }
}
