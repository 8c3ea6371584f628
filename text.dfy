/** The few Python `str` operations the configuration store relies on:
    `split` on one separator, `lower`, `isdigit`, `startswith`, and the
    two `replace` calls of the environment-variable override. Characters
    outside ASCII are treated as ordinary characters (see README). */
module Text {

  predicate IsAsciiDigit(c: char) {
    '0' <= c <= '9'
  }

  /** `s.isdigit()`: non-empty and made of digits only. */
  predicate IsDigits(s: string) {
    |s| > 0 && forall i :: 0 <= i < |s| ==> IsAsciiDigit(s[i])
  }

  function LowerChar(c: char): char {
    if 'A' <= c <= 'Z' then (c as int - 'A' as int + 'a' as int) as char else c
  }

  /** `s.lower()` */
  function Lower(s: string): string
  {
    seq(|s|, i requires 0 <= i < |s| => LowerChar(s[i]))
  }

  /** `s.startswith(prefix)` */
  predicate StartsWith(s: string, prefix: string) {
    |prefix| <= |s| && s[..|prefix|] == prefix
  }

  function Count(s: string, c: char): nat {
    if s == [] then 0 else (if s[0] == c then 1 else 0) + Count(s[1..], c)
  }

  /** `s.replace(c, '', 1)`: drops the first occurrence of `c`, if any. */
  function RemoveFirst(s: string, c: char): string {
    if s == [] then []
    else if s[0] == c then s[1..]
    else [s[0]] + RemoveFirst(s[1..], c)
  }

  /** `s.replace('__', '.')`: Python scans left to right and replaces
      non-overlapping occurrences, so `"___"` becomes `"._"`. */
  function ReplaceDoubleUnderscore(s: string): string {
    if |s| >= 2 && s[0] == '_' && s[1] == '_' then "." + ReplaceDoubleUnderscore(s[2..])
    else if s == [] then []
    else [s[0]] + ReplaceDoubleUnderscore(s[1..])
  }

  predicate HasDoubleUnderscore(s: string) {
    exists i :: 0 <= i < |s| - 1 && s[i] == '_' && s[i + 1] == '_'
  }

  /** `s.split(sep)` for a one-character separator: never empty, and an
      empty string gives `[""]`. */
  function Split(s: string, sep: char): (parts: seq<string>)
    ensures |parts| > 0
  {
    if s == [] then [""]
    else if s[0] == sep then [""] + Split(s[1..], sep)
    else
      var rest := Split(s[1..], sep);
      [[s[0]] + rest[0]] + rest[1..]
  }

  /** `sep.join(parts)`, the inverse of `Split`. */
  function Join(parts: seq<string>, sep: char): string
    requires |parts| > 0
  {
    if |parts| == 1 then parts[0] else parts[0] + [sep] + Join(parts[1..], sep)
  }

  /** Splitting and joining back gives the original string. */
  lemma {:induction false} JoinSplit(s: string, sep: char)
    ensures Join(Split(s, sep), sep) == s
  {
    if s == [] {
    } else if s[0] == sep {
      JoinSplit(s[1..], sep);
      assert Split(s, sep) == [""] + Split(s[1..], sep);
      assert s == [sep] + s[1..];
    } else {
      JoinSplit(s[1..], sep);
      var rest := Split(s[1..], sep);
      var parts := [[s[0]] + rest[0]] + rest[1..];
      assert Split(s, sep) == parts;
      if |rest| == 1 {
        assert Join(parts, sep) == [s[0]] + rest[0];
      } else {
        assert parts[1..] == rest[1..];
        assert Join(parts, sep) == [s[0]] + rest[0] + [sep] + Join(rest[1..], sep);
        assert Join(rest, sep) == rest[0] + [sep] + Join(rest[1..], sep);
      }
      assert s == [s[0]] + s[1..];
    }
  }

  /** No piece of a split contains the separator. */
  lemma {:induction false} SplitPiecesOmitSeparator(s: string, sep: char)
    ensures forall k :: 0 <= k < |Split(s, sep)| ==> sep !in Split(s, sep)[k]
  {
    if s == [] {
    } else if s[0] == sep {
      SplitPiecesOmitSeparator(s[1..], sep);
      var rest := Split(s[1..], sep);
      assert Split(s, sep) == [""] + rest;
      assert forall k :: 1 <= k < |rest| + 1 ==> ([""] + rest)[k] == rest[k - 1];
    } else {
      SplitPiecesOmitSeparator(s[1..], sep);
      var rest := Split(s[1..], sep);
      var parts := [[s[0]] + rest[0]] + rest[1..];
      assert Split(s, sep) == parts;
      assert sep !in [s[0]] + rest[0];
      assert forall k :: 1 <= k < |parts| ==> parts[k] == rest[k];
    }
  }

  /** `RemoveFirst` leaves a string without `c` as it is. */
  lemma {:induction false} RemoveFirstAbsent(s: string, c: char)
    requires c !in s
    ensures RemoveFirst(s, c) == s
  {
    if s != [] {
      assert s[0] != c;
      assert c !in s[1..];
      RemoveFirstAbsent(s[1..], c);
    }
  }

  /** What `s.replace('.', '', 1).isdigit()` accepts: digits and at most
      one dot, with at least one digit. */
  predicate NumericText(s: string) {
    && (forall i :: 0 <= i < |s| ==> IsAsciiDigit(s[i]) || s[i] == '.')
    && Count(s, '.') <= 1
    && (exists i :: 0 <= i < |s| && IsAsciiDigit(s[i]))
  }

  lemma {:induction false} IsDigitsTail(s: string)
    requires |s| > 1 && IsDigits(s)
    ensures IsDigits(s[1..])
  {
    assert forall i :: 0 <= i < |s| - 1 ==> s[1..][i] == s[i + 1];
  }

  lemma {:induction false} DigitsHaveNoDot(s: string)
    requires forall i :: 0 <= i < |s| ==> IsAsciiDigit(s[i])
    ensures Count(s, '.') == 0 && '.' !in s
  {
    if s != [] {
      assert forall i :: 0 <= i < |s| - 1 ==> s[1..][i] == s[i + 1];
      DigitsHaveNoDot(s[1..]);
    }
  }

  lemma {:induction false} RemoveFirstDotIsDigits(s: string)
    ensures IsDigits(RemoveFirst(s, '.')) <==> NumericText(s)
  {
    if s == [] {
    } else if s[0] == '.' {
      LeadingDot(s);
    } else {
      RemoveFirstDotIsDigits(s[1..]);
      if IsDigits(RemoveFirst(s, '.')) {
        LeadingOtherDigits(s);
      }
      if NumericText(s) {
        LeadingOtherNumeric(s);
      }
    }
  }

  /** The case of `RemoveFirstDotIsDigits` where the text starts with the
      dot: what remains must be all digits. */
  lemma LeadingDot(s: string)
    requires s != [] && s[0] == '.'
    ensures IsDigits(RemoveFirst(s, '.')) <==> NumericText(s)
  {
    assert RemoveFirst(s, '.') == s[1..];
    var t := s[1..];
    assert forall i :: 0 <= i < |t| ==> t[i] == s[i + 1];
    if IsDigits(t) {
      DigitsHaveNoDot(t);
      assert Count(s, '.') == 1;
      assert IsAsciiDigit(s[1]);
    }
    if NumericText(s) {
      assert Count(t, '.') == 0;
      forall i | 0 <= i < |t| ensures IsAsciiDigit(t[i]) {
        assert s[i + 1] == t[i];
        if t[i] == '.' { CountPositive(t, i); }
      }
      var j :| 0 <= j < |s| && IsAsciiDigit(s[j]);
      assert j > 0 && t[j - 1] == s[j];
    }
  }

  /** When the text does not start with the dot, the characters kept by
      `RemoveFirst` are the first one and those kept from the tail. */
  lemma LeadingOtherSplit(s: string)
    requires s != [] && s[0] != '.'
    ensures RemoveFirst(s, '.') == [s[0]] + RemoveFirst(s[1..], '.')
    ensures Count(s, '.') == Count(s[1..], '.')
    ensures forall i :: 0 <= i < |s| - 1 ==> s[1..][i] == s[i + 1]
  {
  }

  /** One direction of `RemoveFirstDotIsDigits` when the text does not
      start with the dot, given the statement for its tail. */
  lemma LeadingOtherDigits(s: string)
    requires s != [] && s[0] != '.'
    requires IsDigits(RemoveFirst(s[1..], '.')) <==> NumericText(s[1..])
    requires IsDigits(RemoveFirst(s, '.'))
    ensures NumericText(s)
  {
    LeadingOtherSplit(s);
    var t, r, rt := s[1..], RemoveFirst(s, '.'), RemoveFirst(s[1..], '.');
    assert r[0] == s[0] && IsAsciiDigit(s[0]);
    if |r| > 1 {
      assert r[1..] == rt;
      IsDigitsTail(r);
      assert NumericText(t);
    } else {
      RemoveFirstEmpty(t, '.');
      if t != [] {
        assert t == ['.'] && t[1..] == [];
        assert Count(t, '.') == 1 + Count([], '.');
      }
    }
  }

  /** The other direction of `RemoveFirstDotIsDigits` when the text does
      not start with the dot, given the statement for its tail. */
  lemma LeadingOtherNumeric(s: string)
    requires s != [] && s[0] != '.'
    requires IsDigits(RemoveFirst(s[1..], '.')) <==> NumericText(s[1..])
    requires NumericText(s)
    ensures IsDigits(RemoveFirst(s, '.'))
  {
    LeadingOtherSplit(s);
    var t, r, rt := s[1..], RemoveFirst(s, '.'), RemoveFirst(s[1..], '.');
    assert IsAsciiDigit(s[0]);
    if t != [] && !NumericText(t) {
      NumericTailWithoutDigit(s);
      RemoveFirstEmpty(t, '.');
    }
    assert forall i :: 0 <= i < |rt| ==> r[i + 1] == rt[i];
  }

  lemma {:induction false} CountPositive(s: string, i: int)
    requires 0 <= i < |s| && s[i] == '.'
    ensures Count(s, '.') > 0
  {
    if i > 0 { CountPositive(s[1..], i - 1); }
  }

  /** If `RemoveFirst(s, c)` is empty then `s` was empty or exactly `[c]`. */
  lemma {:induction false} RemoveFirstEmpty(s: string, c: char)
    ensures RemoveFirst(s, c) == [] <==> (s == [] || s == [c])
  {
  }

  lemma {:induction false} NumericTailWithoutDigit(s: string)
    requires |s| > 1 && NumericText(s) && s[0] != '.' && !NumericText(s[1..])
    ensures s[1..] == ['.']
  {
    var t := s[1..];
    assert forall i :: 0 <= i < |t| ==> t[i] == s[i + 1];
    assert Count(t, '.') == Count(s, '.');
    assert forall i :: 0 <= i < |t| ==> IsAsciiDigit(t[i]) || t[i] == '.';
    assert !(exists i :: 0 <= i < |t| && IsAsciiDigit(t[i]));
    assert t[0] == '.';
  }

  /** After `ReplaceDoubleUnderscore` no two underscores are adjacent. */
  lemma {:induction false} NoDoubleUnderscoreAfterReplace(s: string)
    ensures !HasDoubleUnderscore(ReplaceDoubleUnderscore(s))
    ensures ReplaceDoubleUnderscore(s) != [] && ReplaceDoubleUnderscore(s)[0] == '_'
            ==> s[0] == '_' && (|s| < 2 || s[1] != '_')
  {
    if |s| >= 2 && s[0] == '_' && s[1] == '_' {
      NoDoubleUnderscoreAfterReplace(s[2..]);
      var r := ReplaceDoubleUnderscore(s[2..]);
      assert ReplaceDoubleUnderscore(s) == "." + r;
      assert forall i :: 1 <= i < |r| + 1 ==> ("." + r)[i] == r[i - 1];
    } else if s != [] {
      NoDoubleUnderscoreAfterReplace(s[1..]);
      var r := ReplaceDoubleUnderscore(s[1..]);
      assert ReplaceDoubleUnderscore(s) == [s[0]] + r;
      assert forall i :: 1 <= i < |r| + 1 ==> ([s[0]] + r)[i] == r[i - 1];
    }
  }

  /** A string without two adjacent underscores is left as it is. */
  lemma {:induction false} ReplaceWithoutDoubleUnderscore(s: string)
    requires !HasDoubleUnderscore(s)
    ensures ReplaceDoubleUnderscore(s) == s
  {
    if s != [] {
      assert !(|s| >= 2 && s[0] == '_' && s[1] == '_');
      assert !HasDoubleUnderscore(s[1..]) by {
        forall i | 0 <= i < |s| - 2 ensures !(s[1..][i] == '_' && s[1..][i + 1] == '_') {
          assert s[1..][i] == s[i + 1] && s[1..][i + 1] == s[i + 2];
        }
      }
      ReplaceWithoutDoubleUnderscore(s[1..]);
    }
  }

  /** A prefix with no double underscore that does not end in `_` is
      copied through unchanged, whatever follows it. */
  lemma {:induction false} ReplaceAfterPlainPrefix(a: string, b: string)
    requires !HasDoubleUnderscore(a) && (a == [] || a[|a| - 1] != '_')
    ensures ReplaceDoubleUnderscore(a + b) == a + ReplaceDoubleUnderscore(b)
    decreases |a|
  {
    if a == [] {
      assert a + b == b;
    } else {
      var ab := a + b;
      assert ab[0] == a[0];
      assert ab[1..] == a[1..] + b;
      if a[0] == '_' {
        assert |a| >= 2 && ab[1] == a[1] && a[1] != '_';
      }
      assert ReplaceDoubleUnderscore(ab) == [a[0]] + ReplaceDoubleUnderscore(ab[1..]);
      assert !HasDoubleUnderscore(a[1..]) by {
        forall i | 0 <= i < |a[1..]| - 1 ensures !(a[1..][i] == '_' && a[1..][i + 1] == '_') {
          assert a[1..][i] == a[i + 1] && a[1..][i + 1] == a[i + 2];
        }
      }
      if a[1..] != [] {
        assert a[1..][|a[1..]| - 1] == a[|a| - 1];
      }
      ReplaceAfterPlainPrefix(a[1..], b);
      assert a == [a[0]] + a[1..];
      assert [a[0]] + (a[1..] + ReplaceDoubleUnderscore(b)) == a + ReplaceDoubleUnderscore(b);
    }
  }

  /** Lower-casing distributes over concatenation. */
  lemma LowerAppend(a: string, b: string)
    ensures Lower(a + b) == Lower(a) + Lower(b)
  {
    var l, r := Lower(a + b), Lower(a) + Lower(b);
    forall i | 0 <= i < |l| ensures l[i] == r[i] {
      if i < |a| {
        assert (a + b)[i] == a[i];
      } else {
        assert (a + b)[i] == b[i - |a|];
      }
    }
  }

  /** Lower-casing neither creates nor removes underscores. */
  lemma LowerKeepsNoDoubleUnderscore(s: string)
    requires !HasDoubleUnderscore(s)
    ensures !HasDoubleUnderscore(Lower(s))
  {
    var r := Lower(s);
    forall i | 0 <= i < |r| - 1 ensures !(r[i] == '_' && r[i + 1] == '_') {
      assert r[i] == LowerChar(s[i]) && r[i + 1] == LowerChar(s[i + 1]);
    }
  }

  /** Lower-casing creates no dot. */
  lemma LowerKeepsNoDot(s: string)
    requires '.' !in s
    ensures '.' !in Lower(s)
  {
    forall i | 0 <= i < |s| ensures Lower(s)[i] != '.' {
      assert s[i] != '.';
    }
  }

  /** A string without the separator splits into itself alone. */
  lemma {:induction false} SplitWithoutSeparator(s: string, sep: char)
    requires sep !in s
    ensures Split(s, sep) == [s]
  {
    if s != [] {
      assert s[0] != sep && sep !in s[1..];
      SplitWithoutSeparator(s[1..], sep);
      assert [s[0]] + s[1..] == s;
    }
  }
}
