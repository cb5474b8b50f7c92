/**
 * How the tool names things on disk. A path is its sequence of components;
 * `relative_to` is a component-wise prefix test, and name, stem and parent
 * follow the pathlib rules. From these come the annotation file of a video
 * and the name the video selector shows for it.
 */
module Catalog {
  import opened Wrappers
  import opened Text

  type Path = seq<string>

  /** The last component, or "" for the empty path. */
  function Name(p: Path): string {
    if p == [] then "" else p[|p| - 1]
  }

  /** Everything but the last component; the empty path is its own parent. */
  function Parent(p: Path): (q: Path)
    ensures p != [] ==> p == q + [Name(p)]
  {
    if p == [] then [] else p[..|p| - 1]
  }

  /** The position of the last `c` in `s`, or -1 (`str.rfind`). */
  function RFind(s: string, c: char): (i: int)
    ensures -1 <= i < |s|
    ensures i >= 0 ==> s[i] == c
    ensures forall k :: i < k < |s| ==> s[k] != c
  {
    if s == [] then -1
    else if s[|s| - 1] == c then |s| - 1
    else RFind(s[..|s| - 1], c)
  }

  /**
   * pathlib's `stem`: the name without its last suffix, where a suffix needs a
   * dot that is neither the first nor the last character.
   */
  function Stem(name: string): (stem: string)
    ensures |stem| <= |name| && stem == name[..|stem|]
  {
    var i := RFind(name, '.');
    if 0 < i < |name| - 1 then name[..i] else name
  }

  /** `relative_to`: the rest of `p` when `base` is a prefix of it, otherwise the `ValueError` case. */
  function RelativeTo(p: Path, base: Path): (r: Option<Path>)
    ensures r.Some? <==> |base| <= |p| && p[..|base|] == base
    ensures r.Some? ==> p == base + r.value
  {
    if |base| <= |p| && p[..|base|] == base then Some(p[|base|..]) else None
  }

  /**
   * `get_annotation_path`: the video's place below the video folder, repeated
   * below the annotation folder, with the file's stem and ".json". A video
   * outside the video folder has none (the call raises).
   */
  function AnnotationPath(videoDir: Path, annDir: Path, video: Path): (r: Option<Path>)
    ensures r.Some? <==> RelativeTo(video, videoDir).Some?
    ensures r.Some? ==> |r.value| > |annDir| && r.value[..|annDir|] == annDir
  {
    match RelativeTo(video, videoDir)
    case None => None
    case Some(rel) =>
      var q := annDir + Parent(rel) + [Stem(Name(rel)) + ".json"];
      assert q[..|annDir|] == annDir;
      Some(q)
  }

  /** An `.mp4` file name of more than four characters. */
  predicate IsMp4Name(name: string) {
    |name| > 4 && name[|name| - 4..] == ".mp4"
  }

  /** For such a name the stem is the name without ".mp4". */
  lemma Mp4Stem(name: string)
    requires IsMp4Name(name)
    ensures Stem(name) == name[..|name| - 4]
  {
    assert name[|name| - 4] == '.';
    assert name[|name| - 3..] == "mp4";
    assert RFind(name, '.') == |name| - 4 by {
      if name[|name| - 1] == '.' || name[|name| - 2] == '.' || name[|name| - 3] == '.' {
        assert false;
      }
      assert name[..|name| - 1][..|name| - 2] == name[..|name| - 2];
      assert name[..|name| - 2][..|name| - 3] == name[..|name| - 3];
    }
  }

  /**
   * The folders between the video folder and an `.mp4` file are repeated
   * below the annotation folder, and the file's ".mp4" becomes ".json".
   */
  lemma AnnotationPathMirrorsFolders(videoDir: Path, annDir: Path, folders: Path, file: string)
    requires IsMp4Name(file)
    ensures AnnotationPath(videoDir, annDir, videoDir + folders + [file]) == Some(annDir + folders + [file[..|file| - 4] + ".json"])
  {
    var v := videoDir + folders + [file];
    assert v[..|videoDir|] == videoDir;
    assert v[|videoDir|..] == folders + [file];
    Mp4Stem(file);
  }

  /** Two `.mp4` files strictly below the video folder never share an annotation file. */
  lemma AnnotationPathInjective(videoDir: Path, annDir: Path, v1: Path, v2: Path)
    requires RelativeTo(v1, videoDir).Some? && RelativeTo(v2, videoDir).Some?
    requires |v1| > |videoDir| && |v2| > |videoDir|
    requires IsMp4Name(Name(v1)) && IsMp4Name(Name(v2))
    requires AnnotationPath(videoDir, annDir, v1) == AnnotationPath(videoDir, annDir, v2)
    ensures v1 == v2
  {
    var r1, r2 := RelativeTo(v1, videoDir).value, RelativeTo(v2, videoDir).value;
    assert v1 == videoDir + r1 && v2 == videoDir + r2;
    assert Name(r1) == Name(v1) && Name(r2) == Name(v2);
    RelativeAnnotationInjective(annDir, r1, r2);
  }

  /** Below the annotation folder, the folders and the ".json" name give back the relative `.mp4` path. */
  lemma RelativeAnnotationInjective(annDir: Path, r1: Path, r2: Path)
    requires r1 != [] && r2 != [] && IsMp4Name(Name(r1)) && IsMp4Name(Name(r2))
    requires annDir + Parent(r1) + [Stem(Name(r1)) + ".json"] == annDir + Parent(r2) + [Stem(Name(r2)) + ".json"]
    ensures r1 == r2
  {
    LastAndFront(annDir + Parent(r1), Stem(Name(r1)) + ".json", annDir + Parent(r2), Stem(Name(r2)) + ".json");
    assert Parent(r1) == (annDir + Parent(r1))[|annDir|..];
    assert Parent(r2) == (annDir + Parent(r2))[|annDir|..];
    SuffixInjective(Stem(Name(r1)), Stem(Name(r2)), ".json");
    Mp4Stem(Name(r1));
    Mp4Stem(Name(r2));
    assert Name(r1) == Name(r1)[..|Name(r1)| - 4] + ".mp4";
    assert Name(r2) == Name(r2)[..|Name(r2)| - 4] + ".mp4";
  }

  /** Equal sequences with a last element split into equal fronts and equal last elements. */
  lemma LastAndFront<T>(x: seq<T>, a: T, y: seq<T>, b: T)
    requires x + [a] == y + [b]
    ensures x == y && a == b
  {
    assert x == (x + [a])[..|x|];
    assert y == (y + [b])[..|y|];
  }

  /** Two strings that become equal with the same suffix were equal. */
  lemma SuffixInjective(s1: string, s2: string, suffix: string)
    requires s1 + suffix == s2 + suffix
    ensures s1 == s2
  {
    assert s1 == (s1 + suffix)[..|s1|];
    assert s2 == (s2 + suffix)[..|s2|];
  }

  /** Without the length condition the mapping is not injective: ".mp4" and ".mp4.mp4" share one file. */
  lemma AnnotationPathCollision()
    ensures AnnotationPath(["v"], ["a"], ["v", ".mp4"]) == AnnotationPath(["v"], ["a"], ["v", ".mp4.mp4"])
  {
    assert Stem(".mp4") == ".mp4";
    assert RFind(".mp4.mp4", '.') == 4 by {
      assert ".mp4.mp4"[..7] == ".mp4.mp";
      assert ".mp4.mp"[..6] == ".mp4.m";
      assert ".mp4.m"[..5] == ".mp4.";
    }
    assert Stem(".mp4.mp4") == ".mp4";
  }

  /**
   * `get_video_display_name`: "parent/stem" when the parent folder's name is
   * non-empty and differs from the video folder's name, the stem otherwise.
   * Names are compared, not paths.
   */
  function DisplayName(videoDir: Path, video: Path): string
  {
    var parentName := Name(Parent(video));
    var fileName := Stem(Name(video));
    if parentName != "" && parentName != Name(videoDir) then parentName + "/" + fileName else fileName
  }

  /** A video directly inside the video folder is shown by its stem alone. */
  lemma DisplayNameDirectChild(videoDir: Path, file: string)
    ensures DisplayName(videoDir, videoDir + [file]) == Stem(file)
  {
    assert Parent(videoDir + [file]) == videoDir;
  }

  /** A video one folder down is shown as "folder/stem" when the folder's name differs from the video folder's. */
  lemma DisplayNameInSubfolder(videoDir: Path, folder: string, file: string)
    requires folder != "" && folder != Name(videoDir)
    ensures DisplayName(videoDir, videoDir + [folder, file]) == folder + "/" + Stem(file)
  {
    assert Parent(videoDir + [folder, file]) == videoDir + [folder];
  }

  /** A sub-folder that happens to carry the video folder's own name is not shown. */
  lemma DisplayNameComparesNames(videoDir: Path, file: string)
    requires videoDir != []
    ensures DisplayName(videoDir, videoDir + [Name(videoDir), file]) == Stem(file)
  {
    assert Parent(videoDir + [Name(videoDir), file]) == videoDir + [Name(videoDir)];
  }
}
