/** The parts of Rust's string library that the keymap line codec relies on:
    `char::is_whitespace`, `str::split_whitespace`, `str::split(char)`,
    `str::trim`, `[String]::join`, `str::replace`, integer formatting and
    `str::parse::<uN>`, and `BufRead::lines`. Each is a function on
    `seq<char>` with the laws the codec's round trip needs. */
module Text {
  import opened Prelude

  // ---------------------------------------------------------------------
  // Whitespace and tokens (`split_whitespace`)
  // ---------------------------------------------------------------------

  /** Rust's `char::is_whitespace`: the Unicode White_Space property. */
  predicate IsWhitespace(c: char) {
    || ('\U{9}' <= c <= '\U{D}')
    || c == ' '
    || c == '\U{85}'
    || c == '\U{A0}'
    || c == '\U{1680}'
    || ('\U{2000}' <= c <= '\U{200A}')
    || c == '\U{2028}'
    || c == '\U{2029}'
    || c == '\U{202F}'
    || c == '\U{205F}'
    || c == '\U{3000}'
  }

  predicate NoWhitespace(s: string) {
    forall i :: 0 <= i < |s| ==> !IsWhitespace(s[i])
  }

  /** True when every character is whitespace (the empty string included). */
  predicate Blank(s: string) {
    forall i :: 0 <= i < |s| ==> IsWhitespace(s[i])
  }

  /** A piece `split_whitespace` can yield: non-empty, without whitespace. */
  predicate IsToken(t: string) {
    t != [] && NoWhitespace(t)
  }

  /** Length of the run of non-whitespace characters that starts `s`. */
  function TokenEnd(s: string): (n: nat)
    ensures n <= |s|
    ensures forall i :: 0 <= i < n ==> !IsWhitespace(s[i])
    ensures n < |s| ==> IsWhitespace(s[n])
  {
    if s == [] || IsWhitespace(s[0]) then 0 else 1 + TokenEnd(s[1..])
  }

  /** `s.split_whitespace()`: the maximal runs of non-whitespace, in order. */
  function Tokens(s: string): (r: seq<string>)
    ensures forall i :: 0 <= i < |r| ==> IsToken(r[i])
    decreases |s|
  {
    if s == [] then []
    else if IsWhitespace(s[0]) then Tokens(s[1..])
    else
      var n := TokenEnd(s);
      [s[..n]] + Tokens(s[n..])
  }

  lemma {:induction false} TokensOfBlank(s: string)
    ensures Tokens(s) == [] <==> Blank(s)
    decreases |s|
  {
    if s != [] {
      if IsWhitespace(s[0]) {
        TokensOfBlank(s[1..]);
        if Blank(s[1..]) {
          assert Blank(s) by {
            forall i | 0 <= i < |s| ensures IsWhitespace(s[i]) {
              if i > 0 { assert s[i] == s[1..][i - 1]; }
            }
          }
        } else {
          var i :| 0 <= i < |s[1..]| && !IsWhitespace(s[1..][i]);
          assert !IsWhitespace(s[i + 1]);
        }
      }
    }
  }

  /** Whitespace before a string contributes no tokens. */
  lemma {:induction false} TokensAfterBlank(w: string, s: string)
    requires Blank(w)
    ensures Tokens(w + s) == Tokens(s)
    decreases |w|
  {
    if w != [] {
      assert (w + s)[0] == w[0] && IsWhitespace(w[0]);
      assert (w + s)[1..] == w[1..] + s;
      assert Blank(w[1..]) by {
        forall i | 0 <= i < |w[1..]| ensures IsWhitespace(w[1..][i]) {
          assert w[1..][i] == w[i + 1];
        }
      }
      TokensAfterBlank(w[1..], s);
    } else {
      assert w + s == s;
    }
  }

  /** A token followed by whitespace (or nothing) is the first token. */
  lemma TokensCons(t: string, rest: string)
    requires IsToken(t)
    requires rest == [] || IsWhitespace(rest[0])
    ensures Tokens(t + rest) == [t] + Tokens(rest)
  {
    var s := t + rest;
    TokenEndOfToken(t, rest);
    assert s[..|t|] == t;
    assert s[|t|..] == rest;
  }

  lemma {:induction false} TokenEndOfToken(t: string, rest: string)
    requires NoWhitespace(t)
    requires rest == [] || IsWhitespace(rest[0])
    ensures TokenEnd(t + rest) == |t|
    decreases |t|
  {
    if t != [] {
      assert (t + rest)[1..] == t[1..] + rest;
      TokenEndOfToken(t[1..], rest);
    }
  }

  // ---------------------------------------------------------------------
  // Join (`[String]::join`)
  // ---------------------------------------------------------------------

  /** `pieces.join(sep)`. */
  function Join(pieces: seq<string>, sep: string): string {
    if pieces == [] then []
    else if |pieces| == 1 then pieces[0]
    else pieces[0] + sep + Join(pieces[1..], sep)
  }

  predicate AllTokens(ts: seq<string>) {
    forall i :: 0 <= i < |ts| ==> IsToken(ts[i])
  }

  /** Tokens joined by single spaces, then a tail that starts with whitespace
      (or is empty), split back into the tokens followed by the tail's. */
  lemma {:induction false} TokensOfJoinThen(ts: seq<string>, tail: string)
    requires AllTokens(ts)
    requires tail == [] || IsWhitespace(tail[0])
    ensures Tokens(Join(ts, " ") + tail) == ts + Tokens(tail)
    decreases |ts|
  {
    if ts == [] {
      assert Join(ts, " ") + tail == tail;
      assert ts + Tokens(tail) == Tokens(tail);
    } else if |ts| == 1 {
      assert Join(ts, " ") + tail == ts[0] + tail;
      assert IsToken(ts[0]);
      TokensCons(ts[0], tail);
      assert [ts[0]] == ts;
    } else {
      assert AllTokens(ts[1..]) by {
        forall i | 0 <= i < |ts[1..]| ensures IsToken(ts[1..][i]) {
          assert ts[1..][i] == ts[i + 1];
        }
      }
      TokensOfJoinThen(ts[1..], tail);
      TokensOfJoinStep(ts, tail);
    }
  }

  /** One step of TokensOfJoinThen: the first token, then the rest. */
  lemma TokensOfJoinStep(ts: seq<string>, tail: string)
    requires |ts| >= 2 && IsToken(ts[0])
    requires Tokens(Join(ts[1..], " ") + tail) == ts[1..] + Tokens(tail)
    ensures Tokens(Join(ts, " ") + tail) == ts + Tokens(tail)
  {
    var more := Join(ts[1..], " ") + tail;
    var rest := " " + more;
    JoinThenSplit(ts, tail);
    TokensCons(ts[0], rest);
    TokensAfterSpace(more);
    var toks := Tokens(tail);
    assert [ts[0]] + (ts[1..] + toks) == ts + toks;
  }

  lemma JoinThenSplit(ts: seq<string>, tail: string)
    requires |ts| >= 2
    ensures Join(ts, " ") + tail == ts[0] + (" " + (Join(ts[1..], " ") + tail))
  {
    var j := Join(ts[1..], " ");
    assert Join(ts, " ") == ts[0] + " " + j;
    Assoc(ts[0], " ", j);
    Assoc(ts[0], " " + j, tail);
    Assoc(" ", j, tail);
  }

  lemma Assoc(a: string, b: string, c: string)
    ensures a + b + c == a + (b + c)
  {
  }

  lemma TokensAfterSpace(s: string)
    ensures Tokens(" " + s) == Tokens(s)
  {
    assert (" " + s)[1..] == s;
  }

  /** `split_whitespace` undoes `join(" ")` on tokens. */
  lemma TokensOfJoin(ts: seq<string>)
    requires AllTokens(ts)
    ensures Tokens(Join(ts, " ")) == ts
  {
    TokensOfJoinThen(ts, []);
    assert Join(ts, " ") + [] == Join(ts, " ");
  }

  /** Joining two non-empty lists puts one separator between them. */
  lemma {:induction false} JoinAppend(a: seq<string>, b: seq<string>, sep: string)
    requires a != [] && b != []
    ensures Join(a + b, sep) == Join(a, sep) + sep + Join(b, sep)
    decreases |a|
  {
    if |a| == 1 {
      assert (a + b)[1..] == b;
    } else {
      assert (a + b)[1..] == a[1..] + b;
      JoinAppend(a[1..], b, sep);
    }
  }

  /** A character lies in a join iff it lies in a piece or in a separator
      that is actually placed. */
  lemma {:induction false} JoinFree(pieces: seq<string>, c: char)
    requires forall i :: 0 <= i < |pieces| ==> c !in pieces[i]
    ensures c !in Join(pieces, " ") || c == ' '
    decreases |pieces|
  {
    if |pieces| > 1 {
      JoinFree(pieces[1..], c);
    }
  }

  /** The first character of a join is that of its first piece. */
  lemma JoinFirst(ts: seq<string>, sep: string)
    requires ts != [] && ts[0] != []
    ensures Join(ts, sep) != [] && Join(ts, sep)[0] == ts[0][0]
  {
  }

  /** The last character of a join is that of its last piece. */
  lemma {:induction false} JoinLast(ts: seq<string>, sep: string)
    requires ts != [] && ts[|ts| - 1] != []
    ensures Join(ts, sep) != []
    ensures Join(ts, sep)[|Join(ts, sep)| - 1] == ts[|ts| - 1][|ts[|ts| - 1]| - 1]
    decreases |ts|
  {
    if |ts| > 1 {
      JoinLast(ts[1..], sep);
      assert ts[1..][|ts[1..]| - 1] == ts[|ts| - 1];
    }
  }

  /** Two pieces joined by a single space. */
  lemma JoinTwo(a: string, b: string)
    ensures Join([a, b], " ") == a + " " + b
  {
    assert [a, b][1..] == [b];
  }

  // ---------------------------------------------------------------------
  // Split on one character (`str::split(char)`) and `trim`
  // ---------------------------------------------------------------------

  /** `s.split(d)`: the pieces between occurrences of `d`; never empty. */
  function Split(s: string, d: char): (r: seq<string>)
    ensures |r| >= 1
    ensures forall i :: 0 <= i < |r| ==> d !in r[i]
  {
    if s == [] then [[]]
    else if s[0] == d then [[]] + Split(s[1..], d)
    else
      var rest := Split(s[1..], d);
      [[s[0]] + rest[0]] + rest[1..]
  }

  lemma {:induction false} SplitWithout(s: string, d: char)
    requires d !in s
    ensures Split(s, d) == [s]
  {
    if s != [] {
      SplitWithout(s[1..], d);
      assert [s[0]] + s[1..] == s;
    }
  }

  /** The first piece ends at the first delimiter. */
  lemma {:induction false} SplitAt(a: string, d: char, b: string)
    requires d !in a
    ensures Split(a + [d] + b, d) == [a] + Split(b, d)
  {
    if a == [] {
      assert a + [d] + b == [d] + b;
      assert ([d] + b)[1..] == b;
    } else {
      assert (a + [d] + b)[1..] == a[1..] + [d] + b;
      SplitAt(a[1..], d, b);
      assert [a[0]] + a[1..] == a;
    }
  }

  /** The last piece starts after the last delimiter. */
  lemma {:induction false} SplitLast(a: string, d: char, b: string)
    requires d !in b
    ensures Split(a + [d] + b, d) == Split(a, d) + [b]
    decreases |a|
  {
    if a == [] {
      assert a + [d] + b == [d] + b;
      assert ([d] + b)[1..] == b;
      SplitWithout(b, d);
    } else {
      assert (a + [d] + b)[1..] == a[1..] + [d] + b;
      SplitLast(a[1..], d, b);
    }
  }

  /** Text with two delimiters splits into the three pieces around them. */
  lemma SplitThree(a: string, b: string, c: string, d: char)
    requires d !in a && d !in b && d !in c
    ensures Split(a + [d] + b + [d] + c, d) == [a, b, c]
  {
    SplitLast(a + [d] + b, d, c);
    SplitLast(a, d, b);
    SplitWithout(a, d);
  }

  /** Text with four delimiters splits into the five pieces around them. */
  lemma SplitFive(a: string, b: string, c: string, e: string, f: string, d: char)
    requires d !in a && d !in b && d !in c && d !in e && d !in f
    ensures Split(a + [d] + b + [d] + c + [d] + e + [d] + f, d) == [a, b, c, e, f]
  {
    SplitLast(a + [d] + b + [d] + c + [d] + e, d, f);
    SplitLast(a + [d] + b + [d] + c, d, e);
    SplitThree(a, b, c, d);
  }

  /** Text before the first delimiter stays at the front of the first piece. */
  lemma {:induction false} SplitPrefix(w: string, s: string, d: char)
    requires d !in w
    ensures Split(w + s, d)[0] == w + Split(s, d)[0]
    ensures Split(w + s, d)[1..] == Split(s, d)[1..]
  {
    if w != [] {
      assert (w + s)[1..] == w[1..] + s;
      SplitPrefix(w[1..], s, d);
      assert [w[0]] + (w[1..] + Split(s, d)[0]) == w + Split(s, d)[0];
    } else {
      assert w + s == s;
    }
  }

  /** `s.trim_start()`. */
  function TrimStart(s: string): (r: string)
    ensures |r| <= |s| && r == s[|s| - |r|..]
    ensures r == [] || !IsWhitespace(r[0])
  {
    if s != [] && IsWhitespace(s[0]) then TrimStart(s[1..]) else s
  }

  /** `s.trim_end()`. */
  function TrimEnd(s: string): (r: string)
    ensures |r| <= |s| && r == s[..|r|]
    ensures r == [] || !IsWhitespace(r[|r| - 1])
  {
    if s != [] && IsWhitespace(s[|s| - 1]) then TrimEnd(s[..|s| - 1]) else s
  }

  /** `s.trim()`. */
  function Trim(s: string): string {
    TrimEnd(TrimStart(s))
  }

  /** A character that is not whitespace does not occur in blank text. */
  lemma BlankFree(w: string, c: char)
    requires Blank(w) && !IsWhitespace(c)
    ensures c !in w
  {
    assert forall i :: 0 <= i < |w| ==> w[i] != c;
  }

  /** Trimming only removes characters. */
  lemma TrimFree(s: string, c: char)
    requires c !in s
    ensures c !in Trim(s)
  {
    var t := TrimStart(s);
    assert forall i :: 0 <= i < |t| ==> t[i] == s[|s| - |t| + i];
    var r := TrimEnd(t);
    assert forall i :: 0 <= i < |r| ==> r[i] == t[i];
  }

  /** Trimming leaves a string alone exactly when it neither starts nor ends
      with whitespace. */
  lemma TrimUnchanged(s: string)
    ensures Trim(s) == s <==> (s == [] || (!IsWhitespace(s[0]) && !IsWhitespace(s[|s| - 1])))
  {
    if s != [] {
      if IsWhitespace(s[0]) {
        assert |TrimStart(s)| <= |s| - 1;
      } else if IsWhitespace(s[|s| - 1]) {
        assert TrimStart(s) == s;
        assert |TrimEnd(s)| <= |s| - 1;
      } else {
        assert TrimStart(s) == s;
      }
    }
  }

  lemma {:induction false} TrimStartAfterBlank(w: string, s: string)
    requires Blank(w)
    ensures TrimStart(w + s) == TrimStart(s)
    decreases |w|
  {
    if w != [] {
      assert (w + s)[0] == w[0] && IsWhitespace(w[0]);
      assert (w + s)[1..] == w[1..] + s;
      assert Blank(w[1..]) by {
        forall i | 0 <= i < |w[1..]| ensures IsWhitespace(w[1..][i]) {
          assert w[1..][i] == w[i + 1];
        }
      }
      TrimStartAfterBlank(w[1..], s);
    } else {
      assert w + s == s;
    }
  }

  lemma {:induction false} TrimEndBeforeBlank(s: string, w: string)
    requires Blank(w)
    ensures TrimEnd(s + w) == TrimEnd(s)
    decreases |w|
  {
    if w != [] {
      assert (s + w)[..|s + w| - 1] == s + w[..|w| - 1];
      TrimEndBeforeBlank(s, w[..|w| - 1]);
    } else {
      assert s + w == s;
    }
  }

  /** Leading whitespace does not change what `trim` returns. */
  lemma TrimAfterBlank(w: string, s: string)
    requires Blank(w)
    ensures Trim(w + s) == Trim(s)
  {
    TrimStartAfterBlank(w, s);
  }

  /** Trailing whitespace does not change what `trim` returns. */
  lemma {:induction false} TrimBeforeBlank(s: string, w: string)
    requires Blank(w)
    ensures Trim(s + w) == Trim(s)
    decreases |s|
  {
    if s == [] {
      assert s + w == w + s;
      TrimStartAfterBlank(w, s);
    } else if IsWhitespace(s[0]) {
      assert (s + w)[1..] == s[1..] + w;
      TrimBeforeBlank(s[1..], w);
    } else {
      TrimEndBeforeBlank(s, w);
    }
  }

  // ---------------------------------------------------------------------
  // Replace (`str::replace(char, &str)`)
  // ---------------------------------------------------------------------

  /** `s.replace(c, r)`: every occurrence of `c` becomes `r`. */
  function Replace(s: string, c: char, r: string): string {
    if s == [] then []
    else (if s[0] == c then r else [s[0]]) + Replace(s[1..], c, r)
  }

  lemma {:induction false} ReplaceAppend(a: string, b: string, c: char, r: string)
    ensures Replace(a + b, c, r) == Replace(a, c, r) + Replace(b, c, r)
    decreases |a|
  {
    if a != [] {
      assert (a + b)[1..] == a[1..] + b;
      ReplaceAppend(a[1..], b, c, r);
    } else {
      assert a + b == b;
    }
  }

  lemma {:induction false} ReplaceAbsent(s: string, c: char, r: string)
    requires c !in s
    ensures Replace(s, c, r) == s
  {
    if s != [] {
      ReplaceAbsent(s[1..], c, r);
      assert [s[0]] + s[1..] == s;
    }
  }

  /** A character found neither in `s` nor in `r` is not in the result. */
  lemma {:induction false} ReplaceFree(s: string, c: char, r: string, x: char)
    requires x !in s && x !in r
    ensures x !in Replace(s, c, r)
  {
    if s != [] {
      assert s == [s[0]] + s[1..];
      ReplaceFree(s[1..], c, r, x);
    }
  }

  /** Replacing a character by two or more never shortens the text, and
      leaves its length alone exactly when the character does not occur. */
  lemma {:induction false} ReplaceLength(s: string, c: char, r: string)
    requires |r| >= 2
    ensures |Replace(s, c, r)| >= |s|
    ensures |Replace(s, c, r)| == |s| <==> c !in s
  {
    if s != [] {
      assert s == [s[0]] + s[1..];
      ReplaceLength(s[1..], c, r);
    }
  }

  // ---------------------------------------------------------------------
  // Decimal integers (`Display` for integers and `str::parse::<uN>`)
  // ---------------------------------------------------------------------

  predicate IsDigit(c: char) {
    '0' <= c <= '9'
  }

  predicate AllDigits(s: string) {
    forall i :: 0 <= i < |s| ==> IsDigit(s[i])
  }

  function DigitValue(c: char): nat
    requires IsDigit(c)
  {
    (c as int) - ('0' as int)
  }

  function DigitChar(d: nat): (c: char)
    requires d < 10
    ensures IsDigit(c) && DigitValue(c) == d
  {
    (('0' as int) + d) as char
  }

  /** The value of a string of decimal digits, most significant first. */
  function DigitsValue(s: string): nat
    requires AllDigits(s)
  {
    if s == [] then 0 else 10 * DigitsValue(s[..|s| - 1]) + DigitValue(s[|s| - 1])
  }

  /** Integer `Display`: shortest decimal form, no sign, no leading zeros. */
  function NatToString(n: nat): (s: string)
    ensures s != [] && AllDigits(s)
    ensures |s| > 1 ==> s[0] != '0'
  {
    if n < 10 then [DigitChar(n)] else NatToString(n / 10) + [DigitChar(n % 10)]
  }

  /** `s.parse::<uN>()` with `bound` = 2^N: an optional `+` (not on its own),
      then one or more ASCII digits whose value is below `bound`. */
  function ParseUnsigned(s: string, bound: nat): (r: Option<nat>)
    ensures r.Some? ==> r.value < bound
  {
    var digits := if |s| >= 2 && s[0] == '+' then s[1..] else s;
    if digits != [] && AllDigits(digits) && DigitsValue(digits) < bound
    then Some(DigitsValue(digits))
    else None
  }

  lemma {:induction false} NatToStringValue(n: nat)
    ensures DigitsValue(NatToString(n)) == n
  {
    if n >= 10 {
      var s := NatToString(n);
      assert s[..|s| - 1] == NatToString(n / 10);
      NatToStringValue(n / 10);
    }
  }

  /** Parsing undoes formatting, for every value in range. */
  lemma ParseNatToString(n: nat, bound: nat)
    requires n < bound
    ensures ParseUnsigned(NatToString(n), bound) == Some(n)
  {
    NatToStringValue(n);
  }

  /** Distinct numbers format differently. */
  lemma NatToStringInjective(m: nat, n: nat)
    requires NatToString(m) == NatToString(n)
    ensures m == n
  {
    NatToStringValue(m);
    NatToStringValue(n);
  }

  lemma DigitsAreNot(s: string, c: char)
    requires AllDigits(s) && !IsDigit(c)
    ensures c !in s && NoWhitespace(s)
  {
    forall i | 0 <= i < |s| ensures !IsWhitespace(s[i]) {
      assert IsDigit(s[i]);
    }
  }

  // ---------------------------------------------------------------------
  // Lines (`BufRead::lines`)
  // ---------------------------------------------------------------------

  /** Position of the first `\n`, or `|s|` when there is none. */
  function LineEnd(s: string): (n: nat)
    ensures n <= |s| && '\n' !in s[..n]
    ensures n < |s| ==> s[n] == '\n'
  {
    if s == [] || s[0] == '\n' then 0
    else
      var n := 1 + LineEnd(s[1..]);
      assert s[..n] == [s[0]] + s[1..][..n - 1];
      n
  }

  /** `reader.lines()`: split after each `\n`, dropping the `\n` and a `\r`
      just before it; a final piece without `\n` is kept if non-empty. */
  function Lines(text: string): seq<string>
    decreases |text|
  {
    if text == [] then []
    else
      var n := LineEnd(text);
      if n == |text| then [text]
      else
        var line := text[..n];
        var line' := if line != [] && line[|line| - 1] == '\r' then line[..|line| - 1] else line;
        [line'] + Lines(text[n + 1..])
  }

  /** A line without `\n` and not ending in `\r`, written with its newline,
      is read back as that line. */
  lemma LinesCons(line: string, rest: string)
    requires '\n' !in line
    requires line == [] || line[|line| - 1] != '\r'
    ensures Lines(line + "\n" + rest) == [line] + Lines(rest)
  {
    var text := line + "\n" + rest;
    LineEndAt(line, rest);
    assert text[..|line|] == line;
    assert text[|line| + 1..] == rest;
  }

  lemma {:induction false} LineEndAt(line: string, rest: string)
    requires '\n' !in line
    ensures LineEnd(line + "\n" + rest) == |line|
    decreases |line|
  {
    if line != [] {
      assert (line + "\n" + rest)[1..] == line[1..] + "\n" + rest;
      LineEndAt(line[1..], rest);
    }
  }
}
