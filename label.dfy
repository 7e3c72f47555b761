/**
 * The expected transcript of a sample, derived from its path (base name,
 * extension removed, underscores turned into spaces), and the verdict that
 * compares it, case-insensitively, with the transcript the service returned.
 *
 * Paths use '/' as their only separator and carry no volume names.
 */
module Label {

  const SEPARATOR: char := '/'
  /** The key of the transcript inside the reply's result map. */
  const TRANSCRIPT_KEY: string := "r0"

  predicate NoSlash(s: string)
  {
    forall i :: 0 <= i < |s| ==> s[i] != SEPARATOR
  }

  predicate IsSuffix(x: string, s: string)
  {
    |x| <= |s| && s[|s| - |x|..] == x
  }

  // ---------------------------------------------------------------------
  // Base name

  /** The path without its trailing separators. */
  function TrimTrailingSlashes(p: string): (t: string)
    ensures |t| <= |p| && t == p[..|t|]
    ensures t == [] || t[|t| - 1] != SEPARATOR
    ensures forall i :: |t| <= i < |p| ==> p[i] == SEPARATOR
  {
    if p != [] && p[|p| - 1] == SEPARATOR then TrimTrailingSlashes(p[..|p| - 1]) else p
  }

  /** What follows the last separator of `p` (all of `p` when it has none). */
  function LastElement(p: string): (e: string)
    ensures IsSuffix(e, p) && NoSlash(e)
    ensures |e| < |p| ==> p[|p| - |e| - 1] == SEPARATOR
  {
    if p == [] || p[|p| - 1] == SEPARATOR then []
    else
      var e := LastElement(p[..|p| - 1]);
      SuffixThenLast(p, e);
      e + [p[|p| - 1]]
  }

  /** A suffix of all but the last character, extended by that character. */
  lemma SuffixThenLast(p: string, e: string)
    requires p != [] && IsSuffix(e, p[..|p| - 1])
    requires |e| < |p| - 1 ==> p[..|p| - 1][|p| - 1 - |e| - 1] == SEPARATOR
    ensures IsSuffix(e + [p[|p| - 1]], p)
    ensures |e| + 1 < |p| ==> p[|p| - |e| - 2] == SEPARATOR
  {
    var q := p[..|p| - 1];
    var x := e + [p[|p| - 1]];
    forall i | 0 <= i < |x| ensures p[|p| - |x|..][i] == x[i] {
      if i < |e| {
        assert e[i] == q[|q| - |e|..][i];
      }
    }
    assert p[|p| - |x|..] == x;
  }

  /**
   * The last element of a path: "." for the empty path, trailing
   * separators ignored, and "/" for a path made of separators only.
   */
  function Base(path: string): (b: string)
    ensures b != []
    ensures b == "." || b == [SEPARATOR] || NoSlash(b)
  {
    if path == [] then "."
    else
      var e := LastElement(TrimTrailingSlashes(path));
      if e == [] then [SEPARATOR] else e
  }

  /**
   * The base name of a directory prefix, a name and any trailing
   * separators is the name itself.
   */
  lemma BaseOfJoin(dir: string, name: string, trailing: string)
    requires dir == [] || dir[|dir| - 1] == SEPARATOR
    requires name != [] && NoSlash(name)
    requires forall i :: 0 <= i < |trailing| ==> trailing[i] == SEPARATOR
    ensures Base(dir + name + trailing) == name
  {
    var p := dir + name + trailing;
    var n := |dir| + |name|;
    var t := TrimTrailingSlashes(p);
    assert p[n - 1] == name[|name| - 1] != SEPARATOR;
    assert forall i :: n <= i < |p| ==> p[i] == trailing[i - n] == SEPARATOR;
    assert |t| == n;
    assert t == p[..n] == dir + name;
    LastElementOfJoin(dir, name);
  }

  lemma {:induction false} LastElementOfJoin(dir: string, name: string)
    requires dir == [] || dir[|dir| - 1] == SEPARATOR
    requires NoSlash(name)
    ensures LastElement(dir + name) == name
    decreases |name|
  {
    var p := dir + name;
    if name == [] {
      assert p == dir;
    } else {
      assert p[..|p| - 1] == dir + name[..|name| - 1];
      LastElementOfJoin(dir, name[..|name| - 1]);
      assert name == name[..|name| - 1] + [name[|name| - 1]];
    }
  }

  // ---------------------------------------------------------------------
  // Extension

  /**
   * The extension of `path`: from its last '.' to the end, provided no
   * separator follows that '.'; empty otherwise.
   */
  function Ext(path: string): (x: string)
    ensures IsSuffix(x, path)
    ensures x == [] || (x[0] == '.' && NoSlash(x) && forall i :: 1 <= i < |x| ==> x[i] != '.')
  {
    if path == [] || path[|path| - 1] == SEPARATOR then []
    else if path[|path| - 1] == '.' then ['.']
    else
      var x := Ext(path[..|path| - 1]);
      if x == [] then []
      else
        assert path[|path| - |x| - 1..] == path[..|path| - 1][|path| - 1 - |x|..] + [path[|path| - 1]];
        x + [path[|path| - 1]]
  }

  /** A stem, a dot and a dot-free tail: the extension is the dot and the tail. */
  lemma {:induction false} ExtOfDotted(stem: string, tail: string)
    requires NoSlash(tail) && forall i :: 0 <= i < |tail| ==> tail[i] != '.'
    ensures Ext(stem + ['.'] + tail) == ['.'] + tail
    decreases |tail|
  {
    var p := stem + ['.'] + tail;
    if tail != [] {
      var t := tail[..|tail| - 1];
      assert p[..|p| - 1] == stem + ['.'] + t;
      ExtOfDotted(stem, t);
      assert ['.'] + t + [tail[|tail| - 1]] == ['.'] + tail;
    }
  }

  /** A last element without any '.' has no extension. */
  lemma {:induction false} NoDotNoExt(dir: string, name: string)
    requires dir == [] || dir[|dir| - 1] == SEPARATOR
    requires NoSlash(name) && forall i :: 0 <= i < |name| ==> name[i] != '.'
    ensures Ext(dir + name) == []
    decreases |name|
  {
    var p := dir + name;
    if name != [] {
      assert p[..|p| - 1] == dir + name[..|name| - 1];
      NoDotNoExt(dir, name[..|name| - 1]);
    } else {
      assert p == dir;
    }
  }

  /** `s` without the suffix `suffix`, or `s` itself when it does not end so. */
  function TrimSuffix(s: string, suffix: string): (t: string)
    ensures IsSuffix(suffix, s) ==> t + suffix == s
    ensures !IsSuffix(suffix, s) ==> t == s
  {
    if IsSuffix(suffix, s) then s[..|s| - |suffix|] else s
  }

  /** Every '_' becomes a space; every other character is kept. */
  function ReplaceUnderscores(s: string): (r: string)
    ensures |r| == |s|
    ensures forall i :: 0 <= i < |s| ==> r[i] == (if s[i] == '_' then ' ' else s[i])
  {
    if s == [] then [] else ReplaceUnderscores(s[..|s| - 1]) + [if s[|s| - 1] == '_' then ' ' else s[|s| - 1]]
  }

  /**
   * The transcript a sample is expected to produce, from its path: the
   * start of the base name, up to its extension, with underscores spelled
   * as spaces.
   */
  function ExpectedLabel(path: string): (text: string)
    ensures |text| == |Base(path)| - |Ext(Base(path))|
    ensures forall i :: 0 <= i < |text| ==> text[i] != '_'
    ensures forall i :: 0 <= i < |text| ==>
      text[i] == (if Base(path)[i] == '_' then ' ' else Base(path)[i])
  {
    var base := Base(path);
    ReplaceUnderscores(TrimSuffix(base, Ext(base)))
  }

  /** The label of a path whose base name is a stem followed by its extension. */
  lemma LabelFromParts(path: string, name: string, stem: string, x: string)
    requires name == stem + x && Base(path) == name && Ext(name) == x
    ensures ExpectedLabel(path) == ReplaceUnderscores(stem)
  {
    assert name[|name| - |x|..] == x;
    assert name[..|name| - |x|] == stem;
  }

  /** The base name and extension of `dir/stem.ext`. */
  lemma SampleParts(dir: string, stem: string, ext: string)
    requires dir == [] || dir[|dir| - 1] == SEPARATOR
    requires NoSlash(stem)
    requires NoSlash(ext) && forall i :: 0 <= i < |ext| ==> ext[i] != '.'
    ensures Base(dir + stem + "." + ext) == stem + "." + ext
    ensures Ext(stem + "." + ext) == "." + ext
  {
    var name := stem + "." + ext;
    DottedNameHasNoSlash(stem, ext);
    assert dir + stem + "." + ext == dir + name + [];
    BaseOfJoin(dir, name, []);
    ExtOfDotted(stem, ext);
    assert stem + ['.'] + ext == name;
  }

  lemma DottedNameHasNoSlash(stem: string, ext: string)
    requires NoSlash(stem) && NoSlash(ext)
    ensures NoSlash(stem + "." + ext)
  {
    var name := stem + "." + ext;
    forall i | 0 <= i < |name| ensures name[i] != SEPARATOR {
      if i < |stem| {
        assert name[i] == stem[i];
      } else if i > |stem| {
        assert name[i] == ext[i - |stem| - 1];
      }
    }
  }

  /**
   * A sample stored as `dir/stem.ext` is expected to say its stem, with
   * underscores read as spaces; the stem may itself contain dots.
   */
  lemma LabelOfSample(dir: string, stem: string, ext: string)
    requires dir == [] || dir[|dir| - 1] == SEPARATOR
    requires NoSlash(stem)
    requires NoSlash(ext) && forall i :: 0 <= i < |ext| ==> ext[i] != '.'
    ensures ExpectedLabel(dir + stem + "." + ext) == ReplaceUnderscores(stem)
  {
    var name, x := stem + "." + ext, "." + ext;
    assert name == stem + x;
    SampleParts(dir, stem, ext);
    LabelFromParts(dir + stem + "." + ext, name, stem, x);
  }

  /** A sample whose name has no '.' is expected to say its whole name. */
  lemma LabelWithoutExtension(dir: string, name: string)
    requires dir == [] || dir[|dir| - 1] == SEPARATOR
    requires name != [] && NoSlash(name) && forall i :: 0 <= i < |name| ==> name[i] != '.'
    ensures ExpectedLabel(dir + name) == ReplaceUnderscores(name)
  {
    BaseOfJoin(dir, name, []);
    NoDotNoExt([], name);
    assert dir + name + [] == dir + name && [] + name == name && name + [] == name;
    LabelFromParts(dir + name, name, name, []);
  }

  /** "hello_world.wav", in any directory, is expected to say "hello world". */
  lemma ExampleLabel(dir: string)
    requires dir == [] || dir[|dir| - 1] == SEPARATOR
    ensures ExpectedLabel(dir + "hello_world.wav") == "hello world"
  {
    assert dir + "hello_world.wav" == dir + "hello_world" + "." + "wav" by {
      assert "hello_world.wav" == "hello_world" + "." + "wav";
    }
    assert ReplaceUnderscores("hello_world") == "hello world";
    LabelOfSample(dir, "hello_world", "wav");
  }

  // ---------------------------------------------------------------------
  // Verdict

  /** ASCII lower-casing of one character; other characters are kept. */
  function LowerChar(c: char): char
  {
    if 'A' <= c <= 'Z' then (c as int + 32) as char else c
  }

  function Lower(s: string): (r: string)
    ensures |r| == |s|
    ensures forall i :: 0 <= i < |s| ==> r[i] == LowerChar(s[i])
  {
    if s == [] then [] else Lower(s[..|s| - 1]) + [LowerChar(s[|s| - 1])]
  }

  /** Equal up to the case of ASCII letters, character by character. */
  predicate SameIgnoringCase(a: string, b: string)
  {
    |a| == |b| && forall i :: 0 <= i < |a| ==> LowerChar(a[i]) == LowerChar(b[i])
  }

  /** The transcript of a decoded reply: its "r0" entry, or "" when absent. */
  function Transcript(result: map<string, string>): (t: string)
    ensures TRANSCRIPT_KEY !in result ==> t == []
  {
    if TRANSCRIPT_KEY in result then result[TRANSCRIPT_KEY] else []
  }

  /** 1 when the reply's transcript matches the expected label, ignoring case; else 0. */
  function Verdict(response: string, expected: string): (v: int)
    ensures v == 0 || v == 1
  {
    if Lower(response) == Lower(expected) then 1 else 0
  }

  /** The verdict is 1 exactly when the two texts agree up to letter case. */
  lemma VerdictIgnoresCase(response: string, expected: string)
    ensures Verdict(response, expected) == 1 <==> SameIgnoringCase(response, expected)
    ensures Verdict(response, expected) == Verdict(expected, response)
  {
    if SameIgnoringCase(response, expected) {
      assert Lower(response) == Lower(expected);
    }
  }

  /** Lower-casing is idempotent, so a lower-cased transcript matches itself. */
  lemma LowerIdempotent(s: string)
    ensures Lower(Lower(s)) == Lower(s)
  {
  }

  /** A reply that echoes the expected label, in any letter case, passes. */
  lemma EchoPasses(expected: string)
    ensures Verdict(expected, expected) == 1
    ensures Verdict(Lower(expected), expected) == 1
  {
    LowerIdempotent(expected);
  }

  /** A reply without "r0" passes only when the expected label is empty. */
  lemma MissingTranscript(result: map<string, string>, expected: string)
    requires TRANSCRIPT_KEY !in result
    ensures Verdict(Transcript(result), expected) == 1 <==> expected == []
  {
    VerdictIgnoresCase(Transcript(result), expected);
  }

  /** "Hello World" matches the label "hello world". */
  lemma ExampleVerdict()
    ensures Verdict("Hello World", "hello world") == 1
  {
    VerdictIgnoresCase("Hello World", "hello world");
  }
}
