/**
 * The title sanitiser `sanitize_video_title`: a pipeline of string rewrites that
 * turns a video title into a name safe for a file system and an HTTP header.
 * The Unicode NFKD normalisation that opens the pipeline is taken as already
 * applied: the input here is the normalised character sequence.
 */
module Sanitizer {

  const EnDash: char := '–'
  const MaxTitleLength: nat := 150

  predicate IsAscii(c: char) { c as int < 128 }

  predicate IsAsciiLetter(c: char) { 'A' <= c <= 'Z' || 'a' <= c <= 'z' }

  /** The class `[A-Za-z0-9._\- ]` that the sanitiser keeps. */
  predicate IsAllowed(c: char)
  {
    IsAsciiLetter(c) || '0' <= c <= '9' || c == '.' || c == '_' || c == '-' || c == ' '
  }

  /** The characters `strip("._")` removes from both ends. */
  predicate IsTrimmed(c: char) { c == '.' || c == '_' }

  predicate AllAllowed(s: string) { forall i | 0 <= i < |s| :: IsAllowed(s[i]) }

  predicate AllAscii(s: string) { forall i | 0 <= i < |s| :: IsAscii(s[i]) }

  predicate NoDoubleUnderscore(s: string)
  {
    forall i | 0 <= i < |s| - 1 :: !(s[i] == '_' && s[i + 1] == '_')
  }

  predicate StartsClean(s: string) { s == [] || !IsTrimmed(s[0]) }

  predicate EndsClean(s: string) { s == [] || !IsTrimmed(s[|s| - 1]) }

  /** Everything the sanitiser promises of a string it leaves alone. */
  predicate IsClean(s: string)
  {
    AllAllowed(s) && NoDoubleUnderscore(s) && StartsClean(s) && EndsClean(s) && |s| <= MaxTitleLength
  }

  /** `replace("–", "-")`: every en dash becomes a hyphen, nothing else moves. */
  function ReplaceEnDash(s: string): (r: string)
    ensures |r| == |s|
    ensures forall i | 0 <= i < |s| :: r[i] == (if s[i] == EnDash then '-' else s[i])
    ensures EnDash !in s ==> r == s
  {
    if s == [] then [] else [if s[0] == EnDash then '-' else s[0]] + ReplaceEnDash(s[1..])
  }

  /** `encode("ascii", "ignore")`: the ASCII characters of `s`, in order. */
  function DropNonAscii(s: string): (r: string)
    ensures |r| <= |s|
    ensures AllAscii(r)
    ensures AllAscii(s) ==> r == s
    ensures |s| == 1 ==> r == (if IsAscii(s[0]) then s else [])
  {
    if s == [] then []
    else (if IsAscii(s[0]) then [s[0]] else []) + DropNonAscii(s[1..])
  }

  /** The kept characters are exactly the ASCII characters of `s`. */
  lemma {:induction false} DropNonAsciiMembers(s: string, c: char)
    ensures c in DropNonAscii(s) <==> c in s && IsAscii(c)
  {
    if s != [] {
      var h: string := if IsAscii(s[0]) then [s[0]] else [];
      DropNonAsciiMembers(s[1..], c);
      assert DropNonAscii(s) == h + DropNonAscii(s[1..]);
      assert s == [s[0]] + s[1..];
    }
  }

  /** Dropping works piece by piece, so the kept characters stay in order and keep their multiplicity. */
  lemma {:induction false} DropNonAsciiConcat(a: string, b: string)
    ensures DropNonAscii(a + b) == DropNonAscii(a) + DropNonAscii(b)
  {
    if a == [] {
      assert a + b == b;
    } else {
      var h: string := if IsAscii(a[0]) then [a[0]] else [];
      assert DropNonAscii(a + b) == h + DropNonAscii(a[1..] + b) by {
        assert (a + b)[0] == a[0];
        assert (a + b)[1..] == a[1..] + b;
      }
      assert DropNonAscii(a) == h + DropNonAscii(a[1..]);
      DropNonAsciiConcat(a[1..], b);
      var x, y := DropNonAscii(a[1..]), DropNonAscii(b);
      assert h + (x + y) == (h + x) + y;
    }
  }

  /** `re.sub(r'[^A-Za-z0-9._\- ]', '_', s)`: each disallowed character becomes `_`. */
  function MaskDisallowed(s: string): (r: string)
    ensures |r| == |s|
    ensures forall i | 0 <= i < |s| :: r[i] == (if IsAllowed(s[i]) then s[i] else '_')
    ensures AllAllowed(r)
    ensures AllAllowed(s) ==> r == s
  {
    if s == [] then [] else [if IsAllowed(s[0]) then s[0] else '_'] + MaskDisallowed(s[1..])
  }

  /** `re.sub(r'_+', '_', s)`: every run of underscores shrinks to one. */
  function CollapseUnderscores(s: string): (r: string)
    ensures |r| <= |s|
    ensures NoDoubleUnderscore(r)
    ensures s != [] ==> r != [] && r[0] == s[0] && r[|r| - 1] == s[|s| - 1]
    ensures AllAllowed(s) ==> AllAllowed(r)
    ensures NoDoubleUnderscore(s) ==> r == s
  {
    if |s| < 2 then s
    else if s[0] == '_' && s[1] == '_' then CollapseUnderscores(s[1..])
    else [s[0]] + CollapseUnderscores(s[1..])
  }

  /** Collapsing treats a double underscore like a single one, wherever it occurs. */
  lemma {:induction false} CollapseDouble(a: string, b: string)
    ensures CollapseUnderscores(a + "__" + b) == CollapseUnderscores(a + "_" + b)
  {
    if a == [] {
      assert a + "__" + b == ['_', '_'] + b;
      assert (a + "__" + b)[1..] == a + "_" + b;
    } else {
      var s, t := a + "__" + b, a + "_" + b;
      assert s[1..] == a[1..] + "__" + b;
      assert t[1..] == a[1..] + "_" + b;
      assert s[0] == t[0] && s[1] == t[1];
      CollapseDouble(a[1..], b);
    }
  }

  /** `lstrip("._")`: the longest suffix of `s` that does not start with `.` or `_`. */
  function StripLeading(s: string): (r: string)
    ensures |r| <= |s| && r == s[|s| - |r|..]
    ensures StartsClean(r)
    ensures forall i | 0 <= i < |s| - |r| :: IsTrimmed(s[i])
  {
    if s != [] && IsTrimmed(s[0]) then StripLeading(s[1..]) else s
  }

  /** `rstrip("._")`: the longest prefix of `s` that does not end with `.` or `_`. */
  function StripTrailing(s: string): (r: string)
    ensures |r| <= |s| && r == s[..|r|]
    ensures EndsClean(r)
    ensures forall i | |r| <= i < |s| :: IsTrimmed(s[i])
  {
    if s != [] && IsTrimmed(s[|s| - 1]) then StripTrailing(s[..|s| - 1]) else s
  }

  /** `strip("._")`: a slice of `s` with neither end a `.` or `_`. */
  function Strip(s: string): (r: string)
    ensures |r| <= |s|
    ensures StartsClean(r) && EndsClean(r)
    ensures AllAllowed(s) ==> AllAllowed(r)
    ensures NoDoubleUnderscore(s) ==> NoDoubleUnderscore(r)
    ensures StartsClean(s) && EndsClean(s) ==> r == s
  {
    var l := StripLeading(s);
    var r := StripTrailing(l);
    assert r != [] ==> r[0] == l[0];
    r
  }

  /** `strip` removes only `.` and `_`, and only from the two ends: what is left is one slice of `s`. */
  lemma StripIsSlice(s: string) returns (k: nat)
    ensures k + |Strip(s)| <= |s| && Strip(s) == s[k..k + |Strip(s)|]
    ensures forall i | 0 <= i < k :: IsTrimmed(s[i])
    ensures forall i | k + |Strip(s)| <= i < |s| :: IsTrimmed(s[i])
  {
    var l := StripLeading(s);
    var r := StripTrailing(l);
    k := |s| - |l|;
    assert Strip(s) == r;
    PrefixOfSuffix(s, l, r);
    assert r == s[k..k + |r|];
  }


  /** A prefix `r` of a suffix `l` of `s` is a slice of `s`, and what follows it in `l` follows it in `s`. */
  lemma PrefixOfSuffix(s: string, l: string, r: string)
    requires |l| <= |s| && l == s[|s| - |l|..]
    requires |r| <= |l| && r == l[..|r|]
    requires forall i | |r| <= i < |l| :: IsTrimmed(l[i])
    ensures var k := |s| - |l|;
      r == s[k..k + |r|] && forall i | k + |r| <= i < |s| :: IsTrimmed(s[i])
  {
    var k := |s| - |l|;
    forall i | k + |r| <= i < |s| ensures IsTrimmed(s[i]) {
      assert s[i] == l[i - k];
    }
  }


  /** The whole pipeline before the final truncation. */
  function Stripped(s: string): (t: string)
    ensures AllAllowed(t) && NoDoubleUnderscore(t) && StartsClean(t) && EndsClean(t)
  {
    Strip(CollapseUnderscores(MaskDisallowed(DropNonAscii(ReplaceEnDash(s)))))
  }

  /** `sanitize_video_title`, from the NFKD-normalised title on. */
  function Sanitize(s: string): (r: string)
    ensures AllAllowed(r)
    ensures |r| <= MaxTitleLength
    ensures NoDoubleUnderscore(r)
    ensures StartsClean(r)
    ensures |Stripped(s)| <= MaxTitleLength ==> r == Stripped(s) && EndsClean(r)
    ensures |Stripped(s)| > MaxTitleLength ==> r == Stripped(s)[..MaxTitleLength]
  {
    var t := Stripped(s);
    if |t| <= MaxTitleLength then t
    else
      PrefixStaysClean(t, MaxTitleLength);
      t[..MaxTitleLength]
  }

  /** Cutting a string short keeps it allowed, free of double underscores and clean at the start. */
  lemma PrefixStaysClean(t: string, n: nat)
    requires n <= |t| && AllAllowed(t) && NoDoubleUnderscore(t) && StartsClean(t)
    ensures AllAllowed(t[..n]) && NoDoubleUnderscore(t[..n]) && StartsClean(t[..n])
  {
  }

  /** The first four stages change nothing on allowed text without double underscores. */
  lemma {:induction false} EarlyStagesKeep(s: string)
    requires AllAllowed(s) && NoDoubleUnderscore(s)
    ensures CollapseUnderscores(MaskDisallowed(DropNonAscii(ReplaceEnDash(s)))) == s
  {
    forall i | 0 <= i < |s| ensures s[i] != EnDash { assert IsAllowed(s[i]); }
    assert AllAscii(s) by {
      forall i | 0 <= i < |s| ensures IsAscii(s[i]) { assert IsAllowed(s[i]); }
    }
  }

  /** A clean string is its own sanitised form: the sanitiser removes nothing it need not. */
  lemma SanitizeKeepsClean(s: string)
    requires IsClean(s)
    ensures Sanitize(s) == s
  {
    EarlyStagesKeep(s);
  }

  /**
   * Sanitising twice gives the same result exactly when the first result does
   * not end with `.` or `_`; truncation to 150 characters can expose such an end.
   */
  lemma SanitizeIdempotentIff(s: string)
    ensures Sanitize(Sanitize(s)) == Sanitize(s) <==> EndsClean(Sanitize(s))
  {
    var t := Sanitize(s);
    if EndsClean(t) {
      SanitizeKeepsClean(t);
    } else {
      EarlyStagesKeep(t);
      assert StripLeading(t) == t;
      var u := StripTrailing(t);
      assert u != t;
      assert Stripped(t) == u;
    }
  }

  /** A long clean title is cut to its first 150 characters and nothing else. */
  lemma LongCleanTruncated(s: string)
    requires AllAllowed(s) && NoDoubleUnderscore(s) && StartsClean(s) && EndsClean(s)
    requires |s| > MaxTitleLength
    ensures Sanitize(s) == s[..MaxTitleLength]
  {
    EarlyStagesKeep(s);
  }

  /**
   * Truncation can re-expose a trailing `_`: a clean 149-character title
   * followed by `_` and one more kept character sanitises to a string that ends
   * with `_`, and sanitising that again removes it.
   */
  lemma {:induction false} TruncationExposesUnderscore(t: string, c: char)
    requires IsClean(t) && |t| == MaxTitleLength - 1 && t != []
    requires IsAllowed(c) && !IsTrimmed(c)
    ensures Sanitize(t + ['_', c]) == t + ['_']
    ensures Sanitize(Sanitize(t + ['_', c])) != Sanitize(t + ['_', c])
  {
    var s := t + ['_', c];
    assert AllAllowed(s) by {
      forall i | 0 <= i < |s| ensures IsAllowed(s[i]) {
        if i < |t| { assert s[i] == t[i]; }
      }
    }
    assert NoDoubleUnderscore(s) by {
      forall i | 0 <= i < |s| - 1 ensures !(s[i] == '_' && s[i + 1] == '_') {
        if i < |t| - 1 { assert s[i] == t[i] && s[i + 1] == t[i + 1]; }
      }
    }
    assert StartsClean(s) && EndsClean(s);
    LongCleanTruncated(s);
    PrefixOfAppend(t, ['_', c]);
    SanitizeIdempotentIff(s);
  }

  lemma PrefixOfAppend(t: string, u: string)
    requires u != []
    ensures (t + u)[..|t| + 1] == t + [u[0]]
  {
  }

  /** On allowed text the sanitiser is strip followed by truncation. */
  lemma SanitizeOfAllowed(s: string)
    requires AllAllowed(s) && NoDoubleUnderscore(s) && |s| <= MaxTitleLength
    ensures Sanitize(s) == Strip(s)
  {
    EarlyStagesKeep(s);
  }

  lemma {:induction false} MaskTail(t: string, c: char)
    requires AllAllowed(t) && !IsAllowed(c)
    ensures MaskDisallowed(t + [c]) == t + ['_']
  {
    var s := t + [c];
    var m := MaskDisallowed(s);
    forall i | 0 <= i < |s| ensures m[i] == (t + ['_'])[i] {
      if i < |t| { assert IsAllowed(s[i]); }
    }
  }

  lemma {:induction false} AsciiTail(t: string, c: char)
    requires AllAllowed(t) && IsAscii(c)
    ensures DropNonAscii(ReplaceEnDash(t + [c])) == t + [c]
  {
    var s := t + [c];
    assert AllAscii(s) by {
      forall i | 0 <= i < |s| ensures IsAscii(s[i]) {
        if i < |t| { assert s[i] == t[i] && IsAllowed(t[i]); }
      }
    }
    assert EnDash !in s by {
      forall i | 0 <= i < |s| ensures s[i] != EnDash { assert IsAscii(s[i]); }
    }
    assert ReplaceEnDash(s) == s;
  }

  lemma UnderscoreTail(t: string)
    requires NoDoubleUnderscore(t) && EndsClean(t)
    ensures NoDoubleUnderscore(t + ['_'])
  {
    var m := t + ['_'];
    forall i | 0 <= i < |m| - 1 ensures !(m[i] == '_' && m[i + 1] == '_') {
      assert m[i] == t[i];
      if i + 1 < |t| { assert m[i + 1] == t[i + 1]; }
    }
  }

  /** A clean title followed by one disallowed ASCII character sanitises to the clean title. */
  lemma {:induction false} DisallowedTailStripped(t: string, c: char)
    requires IsClean(t) && |t| < MaxTitleLength && t != []
    requires IsAscii(c) && !IsAllowed(c)
    ensures Sanitize(t + [c]) == t
  {
    AsciiTail(t, c);
    MaskTail(t, c);
    var m := t + ['_'];
    UnderscoreTail(t);
    assert StripLeading(m) == m;
    assert m[..|m| - 1] == t;
    assert StripTrailing(m) == StripTrailing(t);
  }

  /** Only the en-dash-free form of a title matters to the rest of the pipeline. */
  lemma SanitizeAfterEnDash(s: string)
    ensures Sanitize(s) == Sanitize(ReplaceEnDash(s))
  {
    var r := ReplaceEnDash(s);
    forall i | 0 <= i < |r| ensures r[i] != EnDash { }
    assert ReplaceEnDash(r) == r;
    assert Stripped(r) == Stripped(s);
  }

  /** `!` becomes `_` and is then stripped; the space is kept. */
  lemma PunctuationExample()
    ensures Sanitize("My Video!") == "My Video"
  {
    assert "My Video!" == "My Video" + ['!'];
    DisallowedTailStripped("My Video", '!');
  }

  /** A title of nothing but punctuation sanitises to the empty string. */
  lemma AllPunctuationEmpty()
    ensures Sanitize("!!!") == ""
  {
    var t := "!!!";
    assert AllAscii(t);
    assert EnDash !in t;
    assert MaskDisallowed(t) == "___";
    assert CollapseUnderscores("___") == "_";
    assert StripLeading("_") == "";
  }
}
