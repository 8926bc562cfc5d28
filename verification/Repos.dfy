/**
 How the backup maps paths to repositories: a repository is named by the first components of a path below the base
 directory. Also the list of files handed to restic, one path a line.
 */
module Repos {
  import opened Bytes

  type RepoId = ByteString

  const NEWLINE: Byte := 0x0A

  // ----- Splitting and joining -----

  /** The pieces between separators; an empty string is one empty piece. */
  function Split(s: ByteString, sep: Byte): (parts: seq<ByteString>)
    ensures parts != []
  {
    if s == [] then [[]]
    else
      var rest := Split(s[1..], sep);
      if s[0] == sep then [[]] + rest else [[s[0]] + rest[0]] + rest[1..]
  }

  function Join(parts: seq<ByteString>, sep: Byte): ByteString {
    if parts == [] then [] else if |parts| == 1 then parts[0] else parts[0] + [sep] + Join(parts[1..], sep)
  }

  predicate Free(parts: seq<ByteString>, sep: Byte) {
    forall part :: part in parts ==> sep !in part
  }

  lemma {:induction false} SplitFree(s: ByteString, sep: Byte)
    ensures Free(Split(s, sep), sep)
  {
    if s != [] {
      SplitFree(s[1..], sep);
      var rest := Split(s[1..], sep);
      assert rest[0] in rest;
    }
  }

  lemma {:induction false} JoinSplit(s: ByteString, sep: Byte)
    ensures Join(Split(s, sep), sep) == s
  {
    if s != [] {
      JoinSplit(s[1..], sep);
      var rest := Split(s[1..], sep);
      if s[0] == sep {
        assert ([[]] + rest)[1..] == rest;
        assert s == [] + [sep] + s[1..];
      } else {
        var parts := [[s[0]] + rest[0]] + rest[1..];
        assert parts[1..] == rest[1..];
        if |rest| > 1 {
          assert s == [s[0]] + (rest[0] + [sep] + Join(rest[1..], sep));
        }
      }
    }
  }

  lemma {:induction false} SplitPiece(piece: ByteString, rest: ByteString, sep: Byte)
    requires sep !in piece
    ensures Split(piece, sep) == [piece]
    ensures Split(piece + [sep] + rest, sep) == [piece] + Split(rest, sep)
  {
    var whole := piece + [sep] + rest;
    if piece == [] {
      assert whole[1..] == rest;
    } else {
      SplitPiece(piece[1..], rest, sep);
      assert whole[1..] == piece[1..] + [sep] + rest;
      assert piece == [piece[0]] + piece[1..];
    }
  }

  lemma {:induction false} SplitJoin(parts: seq<ByteString>, sep: Byte)
    requires parts != [] && Free(parts, sep)
    ensures Split(Join(parts, sep), sep) == parts
  {
    if |parts| == 1 {
      SplitPiece(parts[0], [], sep);
    } else {
      SplitJoin(parts[1..], sep);
      SplitPiece(parts[0], Join(parts[1..], sep), sep);
      assert parts == [parts[0]] + parts[1..];
    }
  }

  /** The list has a line feed between the paths, and none at the end. */
  lemma ListSpelt(a: Path, b: Path)
    ensures Join([a, b], NEWLINE) == a + [0x0A] + b
  {
    assert [a, b][1..] == [b];
  }

  /** The file list says what was meant exactly when no path has a line break in it. */
  lemma ListReadBackIff(paths: seq<Path>)
    requires paths != []
    ensures Split(Join(paths, NEWLINE), NEWLINE) == paths <==> Free(paths, NEWLINE)
  {
    SplitFree(Join(paths, NEWLINE), NEWLINE);
    if Free(paths, NEWLINE) {
      SplitJoin(paths, NEWLINE);
    }
  }

  lemma {:induction false} PieceOfJoin(parts: seq<ByteString>, part: ByteString, sep: Byte)
    requires part in parts && sep !in part
    ensures part in Split(Join(parts, sep), sep)
  {
    var first, rest := parts[0], parts[1..];
    if |parts| == 1 {
      SplitPiece(part, [], sep);
    } else if part == first {
      SplitPiece(part, Join(rest, sep), sep);
    } else {
      PieceOfJoin(rest, part, sep);
      SplitConcat(first, Join(rest, sep), sep);
    }
  }

  /** The pieces behind a separator are pieces of the whole. */
  lemma {:induction false} SplitConcat(a: ByteString, b: ByteString, sep: Byte)
    ensures forall part :: part in Split(b, sep) ==> part in Split(a + [sep] + b, sep)
    ensures |Split(a + [sep] + b, sep)| > 1
    ensures forall part :: part in Split(b, sep) ==> part in Split(a + [sep] + b, sep)[1..]
  {
    var whole := a + [sep] + b;
    if a == [] {
      assert whole[1..] == b;
    } else {
      assert whole[1..] == a[1..] + [sep] + b;
      SplitConcat(a[1..], b, sep);
    }
  }

  /** A path on the list is a line of the file exactly when it has no line break in it, whatever the other paths are. */
  lemma ListedIff(paths: seq<Path>, p: Path)
    requires p in paths
    ensures p in Split(Join(paths, NEWLINE), NEWLINE) <==> NEWLINE !in p
  {
    SplitFree(Join(paths, NEWLINE), NEWLINE);
    if NEWLINE !in p {
      PieceOfJoin(paths, p, NEWLINE);
    }
  }

  // ----- Repositories -----

  /** The path below the base directory, in components. */
  function Below(path: Path, base: Path): Option<seq<ByteString>> {
    if base + [SLASH] <= path then Some(Split(path[|base| + 1..], SLASH)) else None
  }

  function GetRepoId(path: Path, base: Path, depth: nat): Option<RepoId> {
    if !(base + [SLASH] <= path) then None
    else
      var parts := Split(path[|base| + 1..], SLASH);
      if |parts| < depth then None else Some(Join(parts[..depth], SLASH))
  }

  /** A path of given components below the base directory has a repository exactly if there are enough of them. */
  lemma RepoOfComponents(comps: seq<ByteString>, base: Path, depth: nat)
    requires comps != [] && Free(comps, SLASH)
    ensures GetRepoId(base + [SLASH] + Join(comps, SLASH), base, depth)
         == if |comps| < depth then None else Some(Join(comps[..depth], SLASH))
  {
    var below := Join(comps, SLASH);
    var path := base + [SLASH] + below;
    assert path[..|base| + 1] == base + [SLASH] && path[|base| + 1..] == below;
    SplitJoin(comps, SLASH);
  }

  /** Every path below the base directory is one of given components, and no other path has a repository. */
  lemma BelowIsComponents(path: Path, base: Path, depth: nat)
    ensures base + [SLASH] <= path ==>
              exists comps: seq<ByteString> ::
                comps != [] && Free(comps, SLASH) && path == base + [SLASH] + Join(comps, SLASH)
    ensures !(base + [SLASH] <= path) ==> GetRepoId(path, base, depth) == None
  {
    if base + [SLASH] <= path {
      var below := path[|base| + 1..];
      JoinSplit(below, SLASH);
      SplitFree(below, SLASH);
      assert path == base + [SLASH] + below;
      var comps := Split(below, SLASH);
      assert comps != [] && Free(comps, SLASH) && path == base + [SLASH] + Join(comps, SLASH);
    }
  }

  /** Two mapped paths share a repository exactly when they agree on their first components. */
  lemma SameRepoIff(p: Path, q: Path, base: Path, depth: nat)
    requires GetRepoId(p, base, depth).Some? && GetRepoId(q, base, depth).Some?
    ensures GetRepoId(p, base, depth) == GetRepoId(q, base, depth)
       <==> Below(p, base).value[..depth] == Below(q, base).value[..depth]
  {
    var a, b := Below(p, base).value[..depth], Below(q, base).value[..depth];
    SplitFree(p[|base| + 1..], SLASH);
    SplitFree(q[|base| + 1..], SLASH);
    if depth > 0 && Join(a, SLASH) == Join(b, SLASH) {
      SplitJoin(a, SLASH);
      SplitJoin(b, SLASH);
    }
  }

  lemma {:induction false} JoinTake(parts: seq<ByteString>, n: nat, sep: Byte)
    requires 0 < n < |parts|
    ensures Join(parts, sep) == Join(parts[..n], sep) + [sep] + Join(parts[n..], sep)
  {
    if n == 1 {
      assert parts[..1] == [parts[0]];
    } else {
      JoinTake(parts[1..], n - 1, sep);
      assert parts[1..][..n - 1] == parts[..n][1..] && parts[1..][n - 1..] == parts[n..];
    }
  }

  /** A path lies in its repository's directory: it is the directory, or a slash follows. */
  lemma RepoIsDirectory(path: Path, base: Path, depth: nat)
    requires 0 < depth && GetRepoId(path, base, depth).Some?
    ensures var dir := base + [SLASH] + GetRepoId(path, base, depth).value;
            dir <= path && (path == dir || path[|dir|] == SLASH)
  {
    var below := path[|base| + 1..];
    var parts := Split(below, SLASH);
    JoinSplit(below, SLASH);
    assert path == base + [SLASH] + below;
    if depth < |parts| {
      JoinTake(parts, depth, SLASH);
    } else {
      assert parts[..depth] == parts;
    }
  }
}
