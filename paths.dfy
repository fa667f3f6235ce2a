/** The request-path middleware `collapse_double_slashes`, defined identically in
    main.py and app.py, and the file-index key rewrite of `generate_file_index`. */
module Paths {
  import opened Text

  /** Python's `filter(None, path.split("/"))`: the non-empty `/`-separated segments. */
  function Segments(path: string): (r: seq<string>)
    ensures Clean(r)
    ensures forall p :: p in Split(path, '/') && p != [] ==> p in r
  {
    var pieces := Split(path, '/');
    var r := NonEmpty(pieces);
    forall i | 0 <= i < |r| ensures '/' !in r[i] {
      var k :| 0 <= k < |pieces| && pieces[k] == r[i];
    }
    r
  }

  /** `"/" + "/".join(filter(None, path.split("/")))` */
  function Normalize(path: string): (r: string)
    ensures |r| >= 1 && r[0] == '/'
    ensures forall i :: 0 <= i < |r| - 1 ==> !(r[i] == '/' && r[i + 1] == '/')
    ensures r[|r| - 1] == '/' ==> r == "/"
  {
    var ps := Segments(path);
    var j := Join(ps, '/');
    JoinShape(ps);
    "/" + j
  }

  /** Every piece is non-empty and free of the separator. */
  ghost predicate Clean(ps: seq<string>) {
    forall i :: 0 <= i < |ps| ==> ps[i] != [] && '/' !in ps[i]
  }

  /** Joining clean pieces with `/` gives a string that neither starts nor ends
      with `/` and never holds two `/` in a row. */
  lemma {:induction false} JoinShape(ps: seq<string>)
    requires Clean(ps)
    ensures var j := Join(ps, '/');
      && (j == [] <==> ps == [])
      && (j != [] ==> j[0] != '/' && j[|j| - 1] != '/')
      && forall i :: 0 <= i < |j| - 1 ==> !(j[i] == '/' && j[i + 1] == '/')
    decreases |ps|
  {
    if |ps| > 1 {
      JoinShape(ps[1..]);
      var tail := Join(ps[1..], '/');
      var j := Join(ps, '/');
      assert j == ps[0] + ['/'] + tail;
      var n := |ps[0]|;
      assert ps[0][n - 1] != '/' by { assert ps[0][n - 1] in ps[0]; }
      assert j[0] != '/' by { assert ps[0][0] in ps[0]; }
      forall i | 0 <= i < |j| - 1 ensures !(j[i] == '/' && j[i + 1] == '/') {
        if i < n {
          if i + 1 < n { assert j[i] == ps[0][i] && ps[0][i] in ps[0]; }
          else { assert j[i] == ps[0][n - 1]; }
        } else if i > n {
          assert j[i] == tail[i - n - 1] && j[i + 1] == tail[i - n];
        } else {
          assert j[i + 1] == tail[0];
        }
      }
    } else if |ps| == 1 {
      var n := |ps[0]|;
      assert ps[0][n - 1] in ps[0] && ps[0][0] in ps[0];
      forall i | 0 <= i < n - 1 ensures ps[0][i] != '/' {
        assert ps[0][i] in ps[0];
      }
    }
  }

  lemma {:induction false} NonEmptyOfClean(ps: seq<string>)
    requires Clean(ps)
    ensures NonEmpty(ps) == ps
  {
    if ps != [] {
      NonEmptyOfClean(ps[1..]);
      assert [ps[0]] + ps[1..] == ps;
    }
  }

  /** The non-empty segments of the path come through unchanged and in order;
      only the empty ones (from `//`, a leading or a trailing `/`) are dropped. */
  lemma NormalizeKeepsSegments(path: string)
    ensures Segments(Normalize(path)) == Segments(path)
  {
    var ps := Segments(path);
    var j := Join(ps, '/');
    assert Normalize(path) == ['/'] + j;
    assert Split(['/'] + j, '/') == [[]] + Split(j, '/') by {
      assert (['/'] + j)[1..] == j;
    }
    if ps == [] {
      assert Split(j, '/') == [[]];
      var empty: string := [];
      assert NonEmpty([empty, empty]) == [];
    } else {
      SplitJoin(ps, '/');
      NonEmptyOfClean(ps);
      assert ([[]] + ps)[1..] == ps;
    }
  }

  /** Normalising a normalised path changes nothing. */
  lemma NormalizeIdempotent(path: string)
    ensures Normalize(Normalize(path)) == Normalize(path)
  {
    NormalizeKeepsSegments(path);
  }

  /** The middleware: the new `request.scope["path"]` and whether it was written. */
  function CollapseDoubleSlashes(path: string): (r: (string, bool))
    ensures r.0 == Normalize(path)
    ensures r.1 <==> r.0 != path
  {
    var normalized := Normalize(path);
    if normalized != path then (normalized, true) else (path, false)
  }

  /** A path the middleware has already rewritten is never rewritten again. */
  lemma CollapseSettles(path: string)
    ensures !CollapseDoubleSlashes(CollapseDoubleSlashes(path).0).1
  {
    NormalizeIdempotent(path);
  }

  /** `relative_path.replace("\\", "/")`: every backslash becomes a slash. */
  function FileIndexKey(relative: string): (r: string)
    ensures |r| == |relative| && '\\' !in r
    ensures forall i :: 0 <= i < |r| ==> r[i] == (if relative[i] == '\\' then '/' else relative[i])
  {
    if relative == [] then []
    else [if relative[0] == '\\' then '/' else relative[0]] + FileIndexKey(relative[1..])
  }
}
