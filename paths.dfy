/**
 * The part of `pathlib` the command-line tool leans on to name its output:
 * `Path(p).suffix`, `suffix.lower()` and `with_suffix(".mp4")`.
 */
module Paths {
  import opened Common
  import opened Urls

  /** `with_suffix` on a path whose name is empty raises ValueError. */
  datatype NameError = EmptyName

  /** pathlib drops trailing separators. */
  function TrimSlashes(p: string): (t: string)
    ensures |t| <= |p| && t == p[..|t|]
    ensures t == [] || t[|t| - 1] != '/'
    ensures forall i | |t| <= i < |p| :: p[i] == '/'
  {
    if p != [] && p[|p| - 1] == '/' then TrimSlashes(p[..|p| - 1]) else p
  }

  /** Index of the last '.' in `s`, as `str.rfind('.')`. */
  function LastDot(s: string): (k: Option<nat>)
    ensures k.Some? ==> k.value < |s| && s[k.value] == '.'
    ensures k.Some? ==> forall j | k.value < j < |s| :: s[j] != '.'
    ensures k.None? ==> forall j | 0 <= j < |s| :: s[j] != '.'
  {
    if s == [] then None
    else if s[|s| - 1] == '.' then Some(|s| - 1)
    else LastDot(s[..|s| - 1])
  }

  /** Where `PurePath.suffix` starts: at the last '.', unless that dot starts or ends the name. */
  function SuffixStart(name: string): (k: nat)
    ensures k <= |name|
  {
    match LastDot(name)
    case Some(i) => if 0 < i < |name| - 1 then i else |name|
    case None => |name|
  }

  /** `PurePath.suffix`: empty, or a dot that does not start the name followed by at least one character. */
  function Suffix(name: string): (suf: string)
    ensures |suf| <= |name| && suf == name[|name| - |suf|..]
    ensures suf != [] ==> 2 <= |suf| < |name| && suf[0] == '.'
  {
    name[SuffixStart(name)..]
  }

  /** `str.lower()` on ASCII. */
  function LowerString(s: string): (r: string)
    ensures |r| == |s|
  {
    if s == [] then [] else [Lower(s[0])] + LowerString(s[1..])
  }

  const Mp4: string := ".mp4"

  /** `suffix.lower() == ".mp4"`, character by character. */
  predicate IsMp4(suf: string)
  {
    |suf| == 4 && suf[0] == '.' && Lower(suf[1]) == 'm' && Lower(suf[2]) == 'p' && Lower(suf[3]) == '4'
  }

  /** `Path(p)`, then `with_suffix(".mp4")` unless its suffix is already `.mp4` in some case. */
  function WithMp4(p: string): (r: Result<string, NameError>)
    ensures r.Err? <==> LastSegment(TrimSlashes(p)) == []
  {
    NamedMp4(TrimSlashes(p))
  }

  /** `WithMp4` on a path without trailing separators: keep, fail on an empty name, or swap the suffix. */
  function NamedMp4(t: string): (r: Result<string, NameError>)
    ensures r.Err? <==> LastSegment(t) == []
  {
    var name := LastSegment(t);
    var k := SuffixStart(name);
    assert name == [] ==> k == 0 && !IsMp4(name[k..]);
    if IsMp4(name[k..]) then Ok(t)
    else if name == [] then Err(EmptyName)
    else Ok(t[..|t| - (|name| - k)] + Mp4)
  }

  /** The last dot of `a + "." + b` is the one after `a` when `b` has none. */
  lemma {:induction false} LastDotBefore(a: string, b: string)
    requires '.' !in b
    ensures LastDot(a + "." + b) == Some(|a|)
  {
    if b == [] {
      assert a + "." + b == a + ".";
    } else {
      var b' := b[..|b| - 1];
      assert (a + "." + b)[..|a + "." + b| - 1] == a + "." + b';
      LastDotBefore(a, b');
    }
  }

  /** The name of a path `dir + b` is `b` when `dir` is empty or ends in '/'. */
  lemma LastSegmentAfterDir(dir: string, b: string)
    requires '/' !in b
    requires dir == [] || dir[|dir| - 1] == '/'
    ensures LastSegment(dir + b) == b
  {
    if dir == [] {
      assert dir + b == b;
      LastSegmentOfPlain(b);
    } else {
      var a := dir[..|dir| - 1];
      assert dir + b == a + "/" + b;
      LastSegmentAfterSlash(a, b);
    }
  }

  /** A stem that is not empty, followed by `.mp4`, has the suffix `.mp4`. */
  lemma SuffixOfMp4(stem: string)
    requires stem != []
    ensures Suffix(stem + Mp4) == Mp4
  {
    assert stem + Mp4 == stem + "." + "mp4";
    LastDotBefore(stem, "mp4");
    assert (stem + Mp4)[|stem|..] == Mp4;
  }

  /** The character-wise test is `suffix.lower() == ".mp4"`. */
  lemma IsMp4Lower(suf: string)
    ensures IsMp4(suf) <==> LowerString(suf) == Mp4
  {
    if |suf| == 4 {
      LowerStringAt(suf, 0);
      LowerStringAt(suf, 1);
      LowerStringAt(suf, 2);
      LowerStringAt(suf, 3);
      if LowerString(suf) == Mp4 {
        assert Lower(suf[0]) == '.';
      }
    }
  }

  /** `str.lower()` works character by character. */
  lemma {:induction false} LowerStringAt(s: string, i: nat)
    requires i < |s|
    ensures LowerString(s)[i] == Lower(s[i])
  {
    if i > 0 {
      LowerStringAt(s[1..], i - 1);
    }
  }

  /** A name that is not empty has a stem that is not empty. */
  lemma StemNotEmpty(name: string)
    requires name != []
    ensures 0 < SuffixStart(name)
  {
    match LastDot(name)
    case Some(i) =>
    case None =>
  }

  lemma NoSlashWithMp4(stem: string)
    requires '/' !in stem
    ensures '/' !in stem + Mp4
  {
    forall i | 0 <= i < |stem + Mp4| ensures (stem + Mp4)[i] != '/' {
      if i < |stem| { assert (stem + Mp4)[i] == stem[i]; }
    }
  }

  /** A directory, a stem and `.mp4` make a path whose suffix is `.mp4`. */
  lemma ReplacedIsMp4(dir: string, stem: string)
    requires dir == [] || dir[|dir| - 1] == '/'
    requires stem != [] && '/' !in stem
    ensures LastSegment(dir + stem + Mp4) == stem + Mp4
    ensures (dir + stem + Mp4)[|dir + stem + Mp4| - 1] == '4'
    ensures IsMp4(Suffix(LastSegment(dir + stem + Mp4)))
  {
    assert dir + stem + Mp4 == dir + (stem + Mp4);
    NoSlashWithMp4(stem);
    LastSegmentAfterDir(dir, stem + Mp4);
    SuffixOfMp4(stem);
  }

  /** A path is its directory part, ending in '/', then the stem, then the suffix of its name. */
  lemma SplitName(t: string)
    ensures var name := LastSegment(t);
      var dir := t[..|t| - |name|];
      var stem := name[..SuffixStart(name)];
      t[..|t| - (|name| - SuffixStart(name))] == dir + stem
      && (dir == [] || dir[|dir| - 1] == '/') && '/' !in stem
  {
    var name := LastSegment(t);
    var stem := name[..SuffixStart(name)];
    LastSegmentIsTail(t);
    assert '/' !in stem by {
      forall i | 0 <= i < |stem| ensures stem[i] != '/' { assert stem[i] == name[i]; }
    }
  }

  /** `NamedMp4` gives a path ending in a name whose suffix is `.mp4` up to case. */
  lemma NamedMp4IsMp4(t: string)
    requires t == [] || t[|t| - 1] != '/'
    ensures var r := NamedMp4(t);
      r.Ok? ==> var n := r.value;
        n != [] && n[|n| - 1] != '/' && IsMp4(Suffix(LastSegment(n)))
  {
    var name := LastSegment(t);
    var k := SuffixStart(name);
    if !IsMp4(name[k..]) && name != [] {
      SplitName(t);
      StemNotEmpty(name);
      ReplacedIsMp4(t[..|t| - |name|], name[..k]);
    } else if IsMp4(name[k..]) {
      assert Suffix(name) == name[k..];
      assert |name[k..]| == 4;
    }
  }

  /** Every name `WithMp4` gives has the suffix `.mp4`, up to case, and no trailing '/'. */
  lemma WithMp4IsMp4(p: string)
    ensures var r := WithMp4(p);
      r.Ok? ==> var n := r.value;
        n != [] && n[|n| - 1] != '/' && IsMp4(Suffix(LastSegment(n)))
  {
    NamedMp4IsMp4(TrimSlashes(p));
  }

  /** A path whose suffix is `.mp4` in any case, with no trailing '/', is kept as it is. */
  lemma WithMp4Keeps(n: string)
    requires n != [] && n[|n| - 1] != '/'
    requires IsMp4(Suffix(LastSegment(n)))
    ensures WithMp4(n) == Ok(n)
  {
    assert TrimSlashes(n) == n;
  }

  /** Another suffix is replaced, not appended to; a name without one gets `.mp4` added. */
  lemma WithMp4Replaces(p: string)
    requires LastSegment(TrimSlashes(p)) != []
    requires !IsMp4(Suffix(LastSegment(TrimSlashes(p))))
    ensures var t := TrimSlashes(p);
      WithMp4(p) == Ok(t[..|t| - |Suffix(LastSegment(t))|] + Mp4)
  {
    var t := TrimSlashes(p);
    var name := LastSegment(t);
    var k := SuffixStart(name);
    assert |Suffix(name)| == |name| - k;
    assert NamedMp4(t) == Ok(t[..|t| - (|name| - k)] + Mp4);
  }

  /** `WithMp4` fails exactly when the path has no name. */
  lemma WithMp4FailsIff(p: string)
    ensures WithMp4(p).Err? <==> LastSegment(TrimSlashes(p)) == []
  {
    var t := TrimSlashes(p);
    var name := LastSegment(t);
    var k := SuffixStart(name);
    if name == [] {
      assert k == 0;
      assert NamedMp4(t) == Err(EmptyName);
    } else {
      assert NamedMp4(t).Ok?;
    }
  }

  /** The name of a plain file name with a dot inside it: its suffix starts at that dot. */
  lemma PlainName(stem: string, ext: string)
    requires stem != [] && '/' !in stem + "." + ext && '.' !in ext && ext != []
    ensures var t := stem + "." + ext;
      TrimSlashes(t) == t && LastSegment(t) == t && Suffix(t) == "." + ext
  {
    var t := stem + "." + ext;
    LastSegmentOfPlain(t);
    LastDotBefore(stem, ext);
    assert t[|stem|..] == "." + ext;
  }

  /** Upper-case `.MP4` is kept. */
  lemma KeepsUpperCase()
    ensures WithMp4("clip.MP4") == Ok("clip.MP4")
  {
    assert "clip.MP4" == "clip" + "." + "MP4";
    PlainName("clip", "MP4");
    assert IsMp4(".MP4");
  }

  /** A plain file name with another suffix has that suffix swapped for `.mp4`. */
  lemma SwapsSuffix(stem: string, ext: string)
    requires stem != [] && '/' !in stem + "." + ext && '.' !in ext && ext != []
    requires !IsMp4("." + ext)
    ensures WithMp4(stem + "." + ext) == Ok(stem + Mp4)
  {
    var t := stem + "." + ext;
    PlainName(stem, ext);
    var k := SuffixStart(t);
    assert |t[k..]| == |ext| + 1;
    assert k == |stem|;
    assert t[..|t| - (|t| - k)] == stem;
  }

  /** Another suffix is swapped for `.mp4`. */
  lemma SwapsOtherSuffix()
    ensures WithMp4("clip.mkv") == Ok("clip.mp4")
  {
    assert "clip.mkv" == "clip" + "." + "mkv";
    assert !IsMp4(".mkv");
    SwapsSuffix("clip", "mkv");
    assert "clip" + Mp4 == "clip.mp4";
  }

  /** A leading dot does not start a suffix, so the hidden name `.mp4` gets `.mp4` added. */
  lemma HiddenNameGetsSuffix()
    ensures WithMp4(".mp4") == Ok(".mp4.mp4")
  {
    var t := ".mp4";
    assert t == "" + "." + "mp4";
    LastDotBefore("", "mp4");
    LastSegmentOfPlain(t);
    assert TrimSlashes(t) == t;
    assert SuffixStart(t) == |t|;
    assert !IsMp4(t[|t|..]);
    assert NamedMp4(t) == Ok(t[..|t|] + Mp4);
    assert t[..|t|] + Mp4 == ".mp4.mp4";
  }

  /** Normalising twice changes nothing. */
  lemma WithMp4Idempotent(p: string)
    ensures WithMp4(p).Ok? ==> WithMp4(WithMp4(p).value) == WithMp4(p)
  {
    if WithMp4(p).Ok? {
      WithMp4IsMp4(p);
      WithMp4Keeps(WithMp4(p).value);
    }
  }
}
