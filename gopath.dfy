/**
 * Slash-separated path manipulation as Go's `path` and `path/filepath`
 * packages do it on a Unix host: `Base`, `Dir`, `Ext`, `Clean` and a
 * two-element `Join`.
 */
module GoPath {

  /** Index of the last `'/'` in `p`, or -1 when there is none. */
  function LastSlash(p: string): (i: int)
    ensures -1 <= i < |p|
    ensures i >= 0 ==> p[i] == '/'
    ensures forall j :: i < j < |p| ==> p[j] != '/'
    decreases |p|
  {
    if p == [] then -1
    else if p[|p| - 1] == '/' then |p| - 1
    else LastSlash(p[..|p| - 1])
  }

  /** `p` with every trailing `'/'` removed. */
  function TrimTrailingSlashes(p: string): (r: string)
    ensures |r| <= |p| && r == p[..|r|]
    ensures r == [] || r[|r| - 1] != '/'
    ensures forall j :: |r| <= j < |p| ==> p[j] == '/'
    decreases |p|
  {
    if p != [] && p[|p| - 1] == '/' then TrimTrailingSlashes(p[..|p| - 1]) else p
  }

  /**
   * `path.Base`: the last element of `p` after trailing slashes are removed;
   * `"."` for the empty path and `"/"` for a path of slashes only.
   */
  function Base(p: string): (r: string)
    ensures r != []
    ensures r == "/" || '/' !in r
    ensures p != [] && '/' !in p ==> r == p
  {
    if p == [] then "."
    else
      var t := TrimTrailingSlashes(p);
      var b := t[LastSlash(t) + 1..];
      if b == [] then "/" else b
  }

  /**
   * `path.Ext`: the suffix of `p` from the last `'.'` of its final element on,
   * or `""` when that element has no dot.
   */
  function Ext(p: string): (r: string)
    ensures r == [] || (r[0] == '.' && |r| <= |p| && r == p[|p| - |r|..])
    ensures '/' !in r
    ensures r != [] ==> '.' !in r[1..]
    decreases |p|
  {
    if p == [] || p[|p| - 1] == '/' then ""
    else if p[|p| - 1] == '.' then "."
    else
      var e := Ext(p[..|p| - 1]);
      if e == [] then "" else e + [p[|p| - 1]]
  }

  /** `strings.Split(p, "/")`: the pieces between slashes, empty ones included. */
  function SplitSlash(p: string): (r: seq<string>)
    ensures |r| >= 1
    ensures forall k :: 0 <= k < |r| ==> '/' !in r[k]
    decreases |p|
  {
    if p == [] then [""]
    else
      var rest := SplitSlash(p[1..]);
      if p[0] == '/' then [""] + rest else [[p[0]] + rest[0]] + rest[1..]
  }

  /** `strings.Join(segments, "/")`. */
  function JoinSlash(segments: seq<string>): string
  {
    if segments == [] then ""
    else if |segments| == 1 then segments[0]
    else segments[0] + "/" + JoinSlash(segments[1..])
  }

  /**
   * The element-stack walk of `path.Clean`: empty and `"."` elements vanish,
   * `".."` removes the element before it, stays when nothing can be removed
   * on a relative path, and vanishes at the root of a rooted path.
   */
  function CleanElements(segments: seq<string>, rooted: bool, out: seq<string>): (r: seq<string>)
    requires forall k :: 0 <= k < |out| ==> out[k] != "" && out[k] != "."
    ensures forall k :: 0 <= k < |r| ==> r[k] != "" && r[k] != "."
    ensures rooted && (forall k :: 0 <= k < |out| ==> out[k] != "..") ==> ".." !in r
    decreases |segments|
  {
    if segments == [] then out
    else
      var s := segments[0];
      if s == "" || s == "." then CleanElements(segments[1..], rooted, out)
      else if s == ".." then
        if out != [] && out[|out| - 1] != ".." then CleanElements(segments[1..], rooted, out[..|out| - 1])
        else if rooted then CleanElements(segments[1..], rooted, out)
        else CleanElements(segments[1..], rooted, out + [".."])
      else CleanElements(segments[1..], rooted, out + [s])
  }

  /** `path.Clean`: the shortest path naming the same file by lexical processing alone. */
  function Clean(p: string): (r: string)
    ensures r != []
    ensures p != [] && p[0] == '/' ==> r[0] == '/'
  {
    if p == [] then "."
    else
      var rooted := p[0] == '/';
      var body := JoinSlash(CleanElements(SplitSlash(p), rooted, []));
      if rooted then "/" + body
      else if body == [] then "."
      else body
  }

  /** `path.Dir`: everything up to the last slash, cleaned; `"."` when there is no slash. */
  function Dir(p: string): (r: string)
    ensures r != []
    ensures '/' !in p ==> r == "."
  {
    Clean(p[..LastSlash(p) + 1])
  }

  /** `filepath.Join(a, b)`: the non-empty elements joined by a slash and cleaned, or `""`. */
  function Join(a: string, b: string): (r: string)
    ensures r == [] <==> a == [] && b == []
  {
    if a == [] && b == [] then ""
    else if a == [] then Clean(b)
    else if b == [] then Clean(a)
    else Clean(a + "/" + b)
  }

  /** The last element of `dir/name` is `name`, whatever `dir` is. */
  lemma BaseOfChild(dir: string, name: string)
    requires name != [] && '/' !in name
    ensures Base(dir + "/" + name) == name
  {
    var p := dir + "/" + name;
    assert p[|p| - 1] == name[|name| - 1];
    assert TrimTrailingSlashes(p) == p;
    LastSlashAfter(dir + "/", name);
    assert p[|dir| + 1..] == name;
  }

  /** A slash followed by slash-free text is the last slash. */
  lemma {:induction false} LastSlashAfter(prefix: string, rest: string)
    requires prefix != [] && prefix[|prefix| - 1] == '/' && '/' !in rest
    ensures LastSlash(prefix + rest) == |prefix| - 1
    decreases |rest|
  {
    var p := prefix + rest;
    if rest == [] {
      assert p == prefix;
    } else {
      assert p[|p| - 1] == rest[|rest| - 1];
      assert p[..|p| - 1] == prefix + rest[..|rest| - 1];
      LastSlashAfter(prefix, rest[..|rest| - 1]);
    }
  }

  /** A final element `stem.e`, with no dot or slash in `e`, has extension `.e`. */
  lemma {:induction false} ExtOfSuffix(stem: string, e: string)
    requires '.' !in e && '/' !in e
    ensures Ext(stem + "." + e) == "." + e
    decreases |e|
  {
    var p := stem + "." + e;
    if e == [] {
      assert p[|p| - 1] == '.';
    } else {
      assert p[|p| - 1] == e[|e| - 1];
      assert p[..|p| - 1] == stem + "." + e[..|e| - 1];
      ExtOfSuffix(stem, e[..|e| - 1]);
      assert "." + e == ("." + e[..|e| - 1]) + [e[|e| - 1]];
    }
  }

  /** `strings.Split` of a slash-free element followed by one slash. */
  lemma {:induction false} SplitSlashOfDir(name: string)
    requires '/' !in name
    ensures SplitSlash(name + "/") == [name, ""]
  {
    if name != [] {
      assert (name + "/")[1..] == name[1..] + "/";
      SplitSlashOfDir(name[1..]);
      assert [name[0]] + name[1..] == name;
    } else {
      assert name + "/" == "/";
    }
  }

  /** The directory of `dir/name`, for a plain relative element `dir`, is `dir`. */
  lemma DirOfChild(dir: string, name: string)
    requires '/' !in dir && '/' !in name
    requires dir != "" && dir != "." && dir != ".."
    ensures Dir(dir + "/" + name) == dir
  {
    var p := dir + "/" + name;
    assert p == (dir + "/") + name;
    LastSlashAfter(dir + "/", name);
    assert p[..|dir| + 1] == dir + "/";
    SplitSlashOfDir(dir);
    assert [dir, ""][1..] == [""] && [""][1..] == [];
    assert CleanElements([""], false, [dir]) == [dir];
    assert CleanElements([dir, ""], false, []) == [dir];
    assert (dir + "/")[0] == dir[0];
  }

  /** A trailing slash adds one empty piece. */
  lemma {:induction false} SplitSlashTrailing(x: string)
    ensures SplitSlash(x + "/") == SplitSlash(x) + [""]
    decreases |x|
  {
    if x == [] {
      assert x + "/" == "/";
      assert ("/")[1..] == [];
    } else {
      assert (x + "/")[1..] == x[1..] + "/";
      SplitSlashTrailing(x[1..]);
    }
  }

  /** An empty element at the end changes nothing in the walk. */
  lemma {:induction false} CleanElementsTrailingEmpty(segments: seq<string>, rooted: bool, out: seq<string>)
    requires forall k :: 0 <= k < |out| ==> out[k] != "" && out[k] != "."
    ensures CleanElements(segments + [""], rooted, out) == CleanElements(segments, rooted, out)
    decreases |segments|
  {
    var all := segments + [""];
    if segments == [] {
      assert all == [""] && all[1..] == [];
    } else {
      assert all[0] == segments[0];
      assert all[1..] == segments[1..] + [""];
      var s := segments[0];
      if s == "" || s == "." {
        CleanElementsTrailingEmpty(segments[1..], rooted, out);
      } else if s == ".." {
        if out != [] && out[|out| - 1] != ".." {
          CleanElementsTrailingEmpty(segments[1..], rooted, out[..|out| - 1]);
        } else if rooted {
          CleanElementsTrailingEmpty(segments[1..], rooted, out);
        } else {
          CleanElementsTrailingEmpty(segments[1..], rooted, out + [".."]);
        }
      } else {
        CleanElementsTrailingEmpty(segments[1..], rooted, out + [s]);
      }
    }
  }

  /** Cleaning ignores a trailing slash on a non-empty path. */
  lemma CleanTrailingSlash(d: string)
    requires d != []
    ensures Clean(d + "/") == Clean(d)
  {
    assert (d + "/")[0] == d[0];
    SplitSlashTrailing(d);
    CleanElementsTrailingEmpty(SplitSlash(d), d[0] == '/', []);
  }

  /** The directory of `d/name` is `d` cleaned, for any non-empty directory part `d`. */
  lemma DirOfPath(d: string, name: string)
    requires d != [] && '/' !in name
    ensures Dir(d + "/" + name) == Clean(d)
  {
    var p := d + "/" + name;
    assert p == (d + "/") + name;
    LastSlashAfter(d + "/", name);
    assert p[..|d| + 1] == d + "/";
    CleanTrailingSlash(d);
  }
}
