/**
  The name of the video `main` writes: the input path without its last
  extension, as `os.path.splitext` cuts it, followed by
  `_with_chapters.mkv`. `os.path` is `posixpath` or `ntpath` depending on
  the platform; both share one `splitext` and differ only in their
  separators.
 */
module OutputPath {

  const Suffix := "_with_chapters.mkv"

  /** Which `os.path` the interpreter runs with. */
  datatype Flavour = Posix | Windows

  /** A path split into the part before its extension and the extension itself (with its dot), as `splitext` returns them. */
  datatype Split = Split(root: string, ext: string)

  /** `s.rfind(c)`: the last index holding `c`, or -1 when there is none. */
  function RFind(s: string, c: char): (r: int)
    ensures -1 <= r < |s|
    ensures r >= 0 ==> s[r] == c
    ensures forall j :: r < j < |s| ==> s[j] != c
    decreases |s|
  {
    if s == [] then -1 else if s[|s| - 1] == c then |s| - 1 else RFind(s[..|s| - 1], c)
  }

  function Max(a: int, b: int): int {
    if a < b then b else a
  }

  /** Characters that end a directory name: `/`, and on Windows also `\`. */
  predicate IsSep(c: char, fl: Flavour) {
    c == '/' || (fl == Windows && c == '\\')
  }

  /**
    The index of the last separator, or -1: `rfind(sep)`, and on Windows the
    later of that and `rfind(altsep)`.
   */
  function SepIndex(p: string, fl: Flavour): (r: int)
    ensures -1 <= r < |p|
    ensures r >= 0 ==> IsSep(p[r], fl)
    ensures forall j :: r < j < |p| ==> !IsSep(p[j], fl)
  {
    match fl
    case Posix => RFind(p, '/')
    case Windows => Max(RFind(p, '\\'), RFind(p, '/'))
  }

  /** Some character strictly between the last separator and the dot is not itself a dot. */
  predicate HasStem(p: string, sep: int, dot: int)
    requires -1 <= sep && dot <= |p|
  {
    exists k :: sep + 1 <= k < dot && p[k] != '.'
  }

  /**
    `genericpath._splitext`: the extension starts at the last dot when that
    dot lies in the last path component and is not part of the run of dots
    that component starts with; otherwise there is none.
   */
  function SplitExt(p: string, fl: Flavour): Split {
    var sep := SepIndex(p, fl);
    var dot := RFind(p, '.');
    if dot > sep && HasStem(p, sep, dot) then Split(p[..dot], p[dot..]) else Split(p, "")
  }

  /** `os.path.splitext(video_file)[0] + "_with_chapters.mkv"`. */
  function OutputVideo(p: string, fl: Flavour): string {
    SplitExt(p, fl).root + Suffix
  }

  /** The last path component holds a non-dot character followed, later, by a dot. */
  ghost predicate HasExtension(p: string, fl: Flavour) {
    exists i: nat, j: nat :: SepIndex(p, fl) < i < j < |p| && p[i] != '.' && p[j] == '.'
  }

  /**
    What `splitext` promises: root and extension put back together are the
    path; the extension is empty exactly when the last component has no
    extension (a leading dot, as in `.bashrc`, does not start one);
    otherwise it is a dot followed by neither dots nor separators, so it is
    the last extension only.
   */
  lemma SplitExtSound(p: string, fl: Flavour)
    ensures SplitExt(p, fl).root + SplitExt(p, fl).ext == p
    ensures SplitExt(p, fl).ext == "" <==> !HasExtension(p, fl)
    ensures SplitExt(p, fl).ext != "" ==>
      var e := SplitExt(p, fl).ext;
      e[0] == '.' && forall k :: 1 <= k < |e| ==> e[k] != '.' && !IsSep(e[k], fl)
  {
    var sep := SepIndex(p, fl);
    var dot := RFind(p, '.');
    var s := SplitExt(p, fl);
    if dot > sep && HasStem(p, sep, dot) {
      var k :| sep + 1 <= k < dot && p[k] != '.';
      assert sep < k < dot < |p| && p[k] != '.' && p[dot] == '.';
      assert s.root + s.ext == p;
      assert HasExtension(p, fl);
      forall k' | 1 <= k' < |s.ext| ensures s.ext[k'] != '.' && !IsSep(s.ext[k'], fl) {
        assert s.ext[k'] == p[dot + k'];
      }
    } else {
      assert s.root + s.ext == p;
      forall i: nat, j: nat | sep < i < j < |p| && p[j] == '.' ensures p[i] == '.' {
        assert j <= dot;
        assert !HasStem(p, sep, dot);
      }
    }
  }

  /** The output name is the input's root followed by the fixed suffix. */
  lemma OutputVideoShape(p: string, fl: Flavour)
    ensures var out := OutputVideo(p, fl);
      |out| == |SplitExt(p, fl).root| + 18 &&
      out[..|SplitExt(p, fl).root|] == SplitExt(p, fl).root &&
      out[|out| - 18..] == "_with_chapters.mkv"
    ensures SplitExt(p, fl).root == p[..|SplitExt(p, fl).root|]
  {
    SplitExtSound(p, fl);
    var r := SplitExt(p, fl).root;
    assert (r + Suffix)[..|r|] == r;
    assert (r + Suffix)[|r|..] == Suffix;
    assert p == r + SplitExt(p, fl).ext;
  }

  lemma {:induction false} RFindAppend(a: string, b: string, c: char)
    ensures RFind(a + b, c) == if RFind(b, c) >= 0 then |a| + RFind(b, c) else RFind(a, c)
    decreases |b|
  {
    if b == [] {
      assert a + b == a;
    } else {
      var init := b[..|b| - 1];
      assert (a + b)[..|a + b| - 1] == a + init;
      RFindAppend(a, init, c);
    }
  }

  /** `rfind` of a text is pinned down by the one occurrence it must report. */
  lemma RFindAt(s: string, c: char, k: int)
    requires -1 <= k < |s| && (k >= 0 ==> s[k] == c)
    requires forall j :: k < j < |s| ==> s[j] != c
    ensures RFind(s, c) == k
  {
  }

  lemma SuffixFacts()
    ensures RFind(Suffix, '.') == 14 && RFind(Suffix, '/') == -1 && RFind(Suffix, '\\') == -1
    ensures Suffix[13] == 's'
  {
    RFindAt(Suffix, '.', 14);
    RFindAt(Suffix, '/', -1);
    RFindAt(Suffix, '\\', -1);
  }

  /**
    The output name has the extension `.mkv` whatever the input had: split
    again, it gives back the input's root with `_with_chapters` appended.
   */
  lemma OutputVideoExtension(p: string, fl: Flavour)
    ensures SplitExt(OutputVideo(p, fl), fl) == Split(SplitExt(p, fl).root + "_with_chapters", ".mkv")
  {
    var r := SplitExt(p, fl).root;
    var out := r + Suffix;
    SuffixFacts();
    RFindAppend(r, Suffix, '.');
    RFindAppend(r, Suffix, '/');
    RFindAppend(r, Suffix, '\\');
    var sep := SepIndex(out, fl);
    assert sep < |r| by {
      assert RFind(out, '/') == RFind(r, '/') && RFind(out, '\\') == RFind(r, '\\');
    }
    var dot := RFind(out, '.');
    assert dot == |r| + 14;
    assert out[|r| + 13] == 's';
    assert HasStem(out, sep, dot);
    assert out[..dot] == r + Suffix[..14];
    assert out[dot..] == Suffix[14..];
    assert Suffix[..14] == "_with_chapters" && Suffix[14..] == ".mkv";
  }

  /** A Windows path: the drive and directories stay, the extension goes. */
  lemma WindowsExample()
    ensures OutputVideo("C:\\Videos\\movie.mp4", Windows) == "C:\\Videos\\movie" + Suffix
  {
    var p := "C:\\Videos\\movie.mp4";
    assert forall j :: 0 <= j < |p| ==> p[j] != '/';
    RFindAt(p, '/', -1);
    RFindAt(p, '.', 15);
    RFindAt(p, '\\', 9);
    assert p[10] == 'm';
    assert p[..15] == "C:\\Videos\\movie";
  }

  /** Only the last extension is dropped. */
  lemma LastExtensionExample()
    ensures OutputVideo("archive.tar.gz", Posix) == "archive.tar" + Suffix
  {
    var p := "archive.tar.gz";
    RFindAt(p, '.', 11);
    RFindAt(p, '/', -1);
    assert p[0] == 'a';
    assert p[..11] == "archive.tar";
  }

  /** A leading dot does not start an extension, and a dot in a directory name is not one. */
  lemma NoExtensionExamples()
    ensures OutputVideo("/home/user/.bashrc", Posix) == "/home/user/.bashrc" + Suffix
    ensures OutputVideo("dir.d/file", Posix) == "dir.d/file" + Suffix
  {
    var p := "/home/user/.bashrc";
    RFindAt(p, '.', 11);
    RFindAt(p, '/', 10);
    assert !HasStem(p, 10, 11);
    var q := "dir.d/file";
    RFindAt(q, '.', 3);
    RFindAt(q, '/', 5);
  }

  /** The separators decide: `a.b\c` has the extension `.b\c` under POSIX and none on Windows. */
  lemma FlavourExample()
    ensures SplitExt("a.b\\c", Posix) == Split("a", ".b\\c")
    ensures SplitExt("a.b\\c", Windows) == Split("a.b\\c", "")
  {
    var p := "a.b\\c";
    RFindAt(p, '.', 1);
    RFindAt(p, '/', -1);
    RFindAt(p, '\\', 3);
    assert p[0] == 'a';
    assert p[..1] == "a" && p[1..] == ".b\\c";
  }
}
