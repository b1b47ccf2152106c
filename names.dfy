/** File names as the front-ends record them for the report. */
module FileNames {

  /** `path.split("/")[-1]` (main.py), and `Path(path).name` (v0.py) for a
      path that does not end in '/': the text after the last '/'. It is no
      longer than the path and holds no '/'. */
  function BaseName(path: string): (name: string)
    ensures |name| <= |path|
    ensures '/' !in name
  {
    if path == [] then []
    else if path[|path| - 1] == '/' then []
    else BaseName(path[..|path| - 1]) + [path[|path| - 1]]
  }

  /** The base name is the longest suffix of the path without a '/': it
      holds no '/', and the character before it, if any, is a '/'. */
  lemma {:induction false} BaseNameIsLastSegment(path: string)
    ensures var name := BaseName(path);
            && '/' !in name
            && |name| <= |path| && name == path[|path| - |name|..]
            && (|name| < |path| ==> path[|path| - |name| - 1] == '/')
  {
    if path != [] && path[|path| - 1] != '/' {
      var n := |path|;
      var front := path[..n - 1];
      BaseNameIsLastSegment(front);
      var prev := BaseName(front);
      var k := |prev|;
      assert BaseName(path) == prev + [path[n - 1]];
      assert path[n - k - 1..] == path[n - k - 1..n - 1] + [path[n - 1]];
      assert path[n - k - 1..n - 1] == front[n - 1 - k..];
      if k + 1 < n {
        assert path[n - k - 2] == front[n - 1 - k - 1];
      }
    }
  }
}
