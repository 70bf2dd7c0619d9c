/** The string surgery of the entry point: `find_last_of` and `substr` with
    `size_t` arithmetic, trailing-slash removal, input classification and the
    location of a scene's sequence file. */
module Paths {

  /** `std::string::npos`, the largest `size_t`. */
  const Npos: nat := 0xFFFF_FFFF_FFFF_FFFF

  /** A string a `std::string` can hold: its length stays below `npos`. */
  predicate Fits(s: string)
  {
    |s| < Npos
  }

  /** `x + 1` on `size_t`: `npos + 1` wraps to 0. */
  function SizeInc(x: nat): (r: nat)
    requires x <= Npos
    ensures x < Npos ==> r == x + 1
    ensures x == Npos ==> r == 0
  {
    (x + 1) % (Npos + 1)
  }

  /** `n - 1` on `size_t`: `0 - 1` wraps to `npos`. */
  function SizeDec(n: nat): (r: nat)
    requires n <= Npos
    ensures n > 0 ==> r == n - 1
    ensures n == 0 ==> r == Npos
  {
    (n + Npos) % (Npos + 1)
  }

  /** `s.find_last_of(c)`: the index of the last `c`, or `npos` when there is none. */
  function FindLastOf(s: string, c: char): (r: nat)
    requires Fits(s)
    ensures r == Npos <==> c !in s
    ensures r != Npos ==> r < |s| && s[r] == c && forall j :: r < j < |s| ==> s[j] != c
  {
    if s == [] then Npos
    else if s[|s| - 1] == c then |s| - 1
    else FindLastOf(s[..|s| - 1], c)
  }

  /** `s.substr(s.find_last_of(c) + 1)`: the text after the last `c`, or the
      whole string when `c` does not occur, because the index wraps to 0. */
  function AfterLast(s: string, c: char): (r: string)
    requires Fits(s)
    ensures c !in r
    ensures c !in s ==> r == s
    ensures c in s ==> |r| < |s| && s == s[..|s| - |r| - 1] + [c] + r
  {
    var from := SizeInc(FindLastOf(s, c));
    assert s == s[..from] + s[from..];
    s[from..]
  }

  predicate EndsWith(s: string, suffix: string)
  {
    |suffix| <= |s| && s[|s| - |suffix|..] == suffix
  }

  /** When `w` has no `c`, the text after the last `c` of `s` is `w` exactly when
      `s` is `w` itself or ends with `c` followed by `w`. */
  lemma AfterLastIs(s: string, c: char, w: string)
    requires Fits(s)
    requires c !in w
    ensures AfterLast(s, c) == w <==> s == w || EndsWith(s, [c] + w)
  {
    var r := AfterLast(s, c);
    if EndsWith(s, [c] + w) {
      var k := |s| - |w| - 1;
      assert s[k] == c;
      assert s[k + 1..] == w;
      assert forall j :: k < j < |s| ==> s[j] == w[j - k - 1];
      assert FindLastOf(s, c) == k;
    }
    if r == w && c in s {
      assert s[|s| - |w| - 1..] == [c] + w;
    }
  }

  /** The trailing-slash test of the entry point as written: the last '/' sits
      at `size() - 1`, with both sides computed in `size_t`. */
  predicate SlashGuardAsWritten(s: string)
    requires Fits(s)
  {
    FindLastOf(s, '/') == SizeDec(|s|)
  }

  /** Trailing-slash removal as written: `pop_back` when the guard holds. The
      guard also holds on the empty string, where `pop_back` is undefined, so
      this version can only be given non-empty input. */
  function StripAsWritten(s: string): (r: string)
    requires Fits(s)
    requires s != []
    ensures SlashGuardAsWritten(s) ==> r + "/" == s
    ensures !SlashGuardAsWritten(s) ==> r == s
  {
    if SlashGuardAsWritten(s) then s[..|s| - 1] else s
  }

  /** On the empty argument both sides of the guard are `npos`, so the guard
      sends the empty string to `pop_back`. */
  lemma EmptyArgumentPassesSlashGuard()
    ensures SlashGuardAsWritten("")
  {
  }

  /** Trailing-slash removal as intended: drop one final '/', if there is one. */
  function StripTrailingSlash(s: string): (r: string)
    ensures EndsWith(s, "/") ==> r + "/" == s
    ensures !EndsWith(s, "/") ==> r == s
  {
    if s != [] && s[|s| - 1] == '/' then s[..|s| - 1] else s
  }

  /** On every argument the written version can take, the two agree. */
  lemma StripAgrees(s: string)
    requires Fits(s)
    requires s != []
    ensures StripAsWritten(s) == StripTrailingSlash(s)
  {
  }

  /** The last path component: the text after the last '/'. */
  function LastComponent(s: string): string
    requires Fits(s)
  {
    AfterLast(s, '/')
  }

  /** The extension: the text after the last '.'. */
  function Extension(s: string): string
    requires Fits(s)
  {
    AfterLast(s, '.')
  }

  /** A last component "scans" is the same as the path being "scans" or
      ending in "/scans". */
  lemma ScansComponent(p: string)
    requires Fits(p)
    ensures LastComponent(p) == "scans" <==> p == "scans" || EndsWith(p, "/scans")
  {
    AfterLastIs(p, '/', "scans");
  }

  /** An extension "sens" is the same as the path being "sens" or ending in ".sens". */
  lemma SensExtension(p: string)
    requires Fits(p)
    ensures Extension(p) == "sens" <==> p == "sens" || EndsWith(p, ".sens")
  {
    AfterLastIs(p, '.', "sens");
  }

  /** The input shapes the checker accepts. */
  datatype Input = DatasetRoot(dir: string) | SingleSequence(file: string) | WrongInput

  /** The dataset-root test comes first: a last component "scans" wins over
      any extension. A path without '/' is its own last component, and a path
      without '.' is its own extension, so the bare name "sens" is a sequence file. */
  function ClassifyInput(arg: string): (k: Input)
    requires Fits(arg)
    ensures k.DatasetRoot? <==> IsDatasetPath(StripTrailingSlash(arg))
    ensures k.SingleSequence? <==> !IsDatasetPath(StripTrailingSlash(arg))
                                   && IsSequencePath(StripTrailingSlash(arg))
    ensures k.DatasetRoot? ==> k.dir == StripTrailingSlash(arg)
    ensures k.SingleSequence? ==> k.file == StripTrailingSlash(arg)
  {
    var p := StripTrailingSlash(arg);
    ScansComponent(p);
    SensExtension(p);
    if LastComponent(p) == "scans" then DatasetRoot(p)
    else if Extension(p) == "sens" then SingleSequence(p)
    else WrongInput
  }

  predicate IsDatasetPath(p: string)
  {
    p == "scans" || EndsWith(p, "/scans")
  }

  predicate IsSequencePath(p: string)
  {
    p == "sens" || EndsWith(p, ".sens")
  }

  /** The sequence file expected inside a scene directory: the directory, a
      '/', the directory's last component and ".sens". */
  function SensFileName(sceneRoot: string): string
    requires Fits(sceneRoot)
  {
    sceneRoot + "/" + LastComponent(sceneRoot) + ".sens"
  }

  /** The expected sequence file lies directly in the scene directory, its own
      last component is the directory's last component followed by ".sens",
      and so its extension is "sens". */
  lemma SensFileNameShape(sceneRoot: string)
    requires Fits(sceneRoot)
    ensures var r := SensFileName(sceneRoot);
            && |sceneRoot| < |r| && r[..|sceneRoot| + 1] == sceneRoot + "/"
            && (Fits(r) ==> LastComponent(r) == LastComponent(sceneRoot) + ".sens")
            && (Fits(r) ==> Extension(r) == "sens")
  {
    FileComponents(sceneRoot, LastComponent(sceneRoot), SensFileName(sceneRoot));
  }

  lemma FileComponents(dir: string, base: string, path: string)
    requires '/' !in base
    requires path == dir + "/" + base + ".sens"
    ensures |dir| < |path| && path[..|dir| + 1] == dir + "/"
    ensures Fits(path) ==> LastComponent(path) == base + ".sens" && Extension(path) == "sens"
  {
    var name := base + ".sens";
    assert '/' !in name by {
      assert '/' !in ".sens";
    }
    assert path == dir + ("/" + name);
    assert path[|dir|..] == "/" + name;
    assert EndsWith(path, "/" + name);
    assert path == (dir + "/" + base) + ".sens";
    assert EndsWith(path, ".sens");
    if Fits(path) {
      AfterLastIs(path, '/', name);
      SensExtension(path);
    }
  }

  /** A directory entry `dir/name` expects its sequence file at `dir/name/name.sens`. */
  lemma SceneSensFile(dir: string, name: string)
    requires '/' !in name
    requires Fits(dir + "/" + name)
    ensures SensFileName(dir + "/" + name) == dir + "/" + name + "/" + name + ".sens"
  {
    var root := dir + "/" + name;
    assert root == dir + ("/" + name);
    assert EndsWith(root, "/" + name);
    AfterLastIs(root, '/', name);
  }

  /** Every expected sequence file, passed as the argument, is classified as a
      single sequence: the two modes never disagree about what a sequence file is. */
  lemma SensFileIsSequenceInput(sceneRoot: string)
    requires Fits(sceneRoot)
    requires Fits(SensFileName(sceneRoot))
    ensures ClassifyInput(SensFileName(sceneRoot)) == SingleSequence(SensFileName(sceneRoot))
  {
    var r := SensFileName(sceneRoot);
    var base := LastComponent(sceneRoot);
    SensFileNameShape(sceneRoot);
    assert r[|r| - 1] == 's';
    assert StripTrailingSlash(r) == r;
    ScansComponent(r);
    SensExtension(r);
    assert LastComponent(r) != "scans" by {
      assert (base + ".sens")[|base|] == '.';
      if |base + ".sens"| == 5 { assert "scans"[0] != '.'; }
    }
  }
}
