/**
 * The path check of the drag-and-drop handler: the dropped text is stripped
 * of surrounding whitespace, one pair of braces around it (which the
 * drag-and-drop layer adds to paths containing spaces) is removed, and the
 * result is accepted only when it ends, ignoring case, in .mp4, .mov or .avi.
 */
module DropPath {
  import opened Wrappers

  /** The characters Python's str.strip() removes (str.isspace()). */
  predicate IsSpace(c: char) {
    var n := c as int;
    (9 <= n <= 13) || (0x1C <= n <= 0x20) || n == 0x85 || n == 0xA0 || n == 0x1680
    || (0x2000 <= n <= 0x200A) || n == 0x2028 || n == 0x2029 || n == 0x202F
    || n == 0x205F || n == 0x3000
  }

  predicate AllSpace(s: string) {
    forall i :: 0 <= i < |s| ==> IsSpace(s[i])
  }

  function TrimStart(s: string): (r: string)
    ensures |r| <= |s| && r == s[|s| - |r|..]
    ensures r == [] || !IsSpace(r[0])
  {
    if |s| > 0 && IsSpace(s[0]) then TrimStart(s[1..]) else s
  }

  function TrimEnd(s: string): (r: string)
    ensures |r| <= |s| && r == s[..|r|]
    ensures r == [] || !IsSpace(r[|r| - 1])
  {
    if |s| > 0 && IsSpace(s[|s| - 1]) then TrimEnd(s[..|s| - 1]) else s
  }

  /** Python's str.strip() with no argument. */
  function Strip(s: string): string {
    TrimEnd(TrimStart(s))
  }

  /** Lower-casing of ASCII letters; the only letters the extension test can match. */
  function LowerChar(c: char): char {
    if 'A' <= c <= 'Z' then (c as int + 32) as char else c
  }

  function Lower(s: string): (r: string)
    ensures |r| == |s|
    ensures forall i :: 0 <= i < |s| ==> r[i] == LowerChar(s[i])
  {
    if s == [] then [] else [LowerChar(s[0])] + Lower(s[1..])
  }

  /** file_path.lower().endswith(('.mp4', '.mov', '.avi')) */
  predicate HasVideoExtension(p: string) {
    |p| >= 4 && IsVideoExtension(Lower(p[|p| - 4..]))
  }

  predicate IsVideoExtension(e: string) {
    e == ".mp4" || e == ".mov" || e == ".avi"
  }

  /** A video path ends in a digit or letter: neither whitespace nor a closing brace. */
  lemma VideoPathLastChar(p: string)
    requires HasVideoExtension(p)
    ensures !IsSpace(p[|p| - 1]) && p[|p| - 1] != '}'
  {
    var e := Lower(p[|p| - 4..]);
    assert e[3] == LowerChar(p[|p| - 1]);
    assert e[3] in {'4', 'v', 'i'};
  }

  /** Removes one pair of braces when the text both starts with '{' and ends with '}'. */
  function Unbrace(t: string): string {
    if |t| >= 2 && t[0] == '{' && t[|t| - 1] == '}' then t[1..|t| - 1] else t
  }

  /**
   * The path on_drop hands to the loader, or None when it shows the
   * invalid-file error instead.
   */
  function DroppedPath(data: string): (r: Option<string>)
    ensures r.Some? ==> HasVideoExtension(r.value)
    ensures r.Some? ==> exists i, j :: 0 <= i <= j <= |data| && data[i..j] == r.value
  {
    var p := Unbrace(Strip(data));
    if HasVideoExtension(p) then
      UnbracedStripIsSlice(data);
      Some(p)
    else None
  }

  /** Stripping and unbracing leave a contiguous piece of the dropped text. */
  lemma UnbracedStripIsSlice(data: string)
    ensures exists i, j :: 0 <= i <= j <= |data| && data[i..j] == Unbrace(Strip(data))
  {
    var u := TrimStart(data);
    UnbracedPrefixOfSuffix(data, u, TrimEnd(u));
  }

  /**
   * When u is a suffix of data and t a prefix of u, unbracing t leaves a
   * slice of data.
   */
  lemma UnbracedPrefixOfSuffix(data: string, u: string, t: string)
    requires |u| <= |data| && u == data[|data| - |u|..]
    requires |t| <= |u| && t == u[..|t|]
    ensures exists i, j :: 0 <= i <= j <= |data| && data[i..j] == Unbrace(t)
  {
    var a := |data| - |u|;
    forall k | 0 <= k < |t|
      ensures t[k] == data[a + k]
    {
      assert t[k] == u[k] == data[a + k];
    }
    assert t == data[a..a + |t|];
    if |t| >= 2 && t[0] == '{' && t[|t| - 1] == '}' {
      assert data[a + 1..a + |t| - 1] == t[1..|t| - 1];
    } else {
      assert data[a..a + |t|] == Unbrace(t);
    }
  }

  lemma {:induction false} TrimStartSkips(pre: string, q: string)
    requires AllSpace(pre)
    requires |q| > 0 && !IsSpace(q[0])
    ensures TrimStart(pre + q) == q
    decreases |pre|
  {
    if pre != [] {
      assert (pre + q)[1..] == pre[1..] + q;
      TrimStartSkips(pre[1..], q);
    }
  }

  lemma {:induction false} TrimEndSkips(q: string, post: string)
    requires AllSpace(post)
    requires |q| > 0 && !IsSpace(q[|q| - 1])
    ensures TrimEnd(q + post) == q
    decreases |post|
  {
    if post != [] {
      assert (q + post)[..|q + post| - 1] == q + post[..|post| - 1];
      TrimEndSkips(q, post[..|post| - 1]);
    }
  }

  lemma StripSurrounded(pre: string, q: string, post: string)
    requires AllSpace(pre) && AllSpace(post)
    requires |q| > 0 && !IsSpace(q[0]) && !IsSpace(q[|q| - 1])
    ensures Strip(pre + q + post) == q
  {
    assert pre + q + post == pre + (q + post);
    TrimStartSkips(pre, q + post);
    TrimEndSkips(q, post);
  }

  /**
   * A video path is accepted unchanged whether it arrives bare or wrapped in
   * braces, with any whitespace around it.
   */
  lemma DroppedVideoPathAccepted(pre: string, p: string, post: string)
    requires AllSpace(pre) && AllSpace(post)
    requires HasVideoExtension(p) && !IsSpace(p[0])
    ensures DroppedPath(pre + p + post) == Some(p)
    ensures DroppedPath(pre + "{" + p + "}" + post) == Some(p)
  {
    VideoPathLastChar(p);
    StripSurrounded(pre, p, post);
    assert Unbrace(p) == p;
    var w := "{" + p + "}";
    assert pre + "{" + p + "}" + post == pre + w + post;
    StripSurrounded(pre, w, post);
    assert Unbrace(w) == p by {
      assert w[1..|w| - 1] == p;
    }
  }

  /**
   * Any other file is refused: a bare path without a video extension, with
   * or without braces and surrounding whitespace, produces the error.
   */
  lemma OtherFileRejected(pre: string, p: string, post: string)
    requires AllSpace(pre) && AllSpace(post)
    requires !HasVideoExtension(p) && |p| > 0 && !IsSpace(p[0]) && !IsSpace(p[|p| - 1])
    requires p[0] != '{'
    ensures DroppedPath(pre + p + post) == None
    ensures DroppedPath(pre + "{" + p + "}" + post) == None
  {
    StripSurrounded(pre, p, post);
    var w := "{" + p + "}";
    assert pre + "{" + p + "}" + post == pre + w + post;
    StripSurrounded(pre, w, post);
    assert w[1..|w| - 1] == p;
  }
}
