/** Mirroring a position written in Forsyth-Edwards Notation (section 16.1
    of the PGN standard): the rank order is reversed, the case of every
    letter in the placement and castling fields is swapped, and the side to
    move is flipped. Two implementations exist: the script
    scripts/mirror_fen.py and `mirrorFen` in src/utils.cpp. They differ only
    in how they split text: Python's `str.split` keeps a trailing empty
    token, `std::getline` drops it. */
module Fen {

  import opened Wrappers

  // ---------------------------------------------------------------------
  // Splitting and joining text

  /** `s.split(d)` in Python: the maximal runs between separators, always at
      least one (possibly empty) token. */
  function Split(s: string, d: char): (r: seq<string>)
    ensures |r| >= 1
    ensures forall i :: 0 <= i < |r| ==> d !in r[i]
    decreases |s|
  {
    if |s| == 0 then [""]
    else
      var rest := Split(s[1..], d);
      if s[0] == d then [""] + rest
      else [[s[0]] + rest[0]] + rest[1..]
  }

  /** `d.join(xs)`: the tokens with one separator between neighbours. */
  function Join(xs: seq<string>, d: char): (r: string)
    decreases |xs|
  {
    if |xs| == 0 then ""
    else if |xs| == 1 then xs[0]
    else xs[0] + [d] + Join(xs[1..], d)
  }

  predicate NoSep(xs: seq<string>, d: char)
  {
    forall i :: 0 <= i < |xs| ==> d !in xs[i]
  }

  /** Joining the tokens of a split gives the text back. */
  lemma {:induction false} JoinSplit(s: string, d: char)
    ensures Join(Split(s, d), d) == s
    decreases |s|
  {
    if |s| > 0 {
      JoinSplit(s[1..], d);
      var rest := Split(s[1..], d);
      if s[0] == d {
        assert Split(s, d) == [""] + rest;
        assert s == [d] + s[1..];
      } else {
        var r := Split(s, d);
        assert r == [[s[0]] + rest[0]] + rest[1..];
        if |rest| == 1 {
          assert s == [s[0]] + rest[0];
        } else {
          assert rest == [rest[0]] + rest[1..];
          assert Join(rest, d) == rest[0] + [d] + Join(rest[1..], d);
          assert r[1..] == rest[1..];
          assert s == [s[0]] + s[1..];
        }
      }
    }
  }

  /** Splitting joined tokens that contain no separator gives the tokens
      back. */
  lemma {:induction false} SplitJoin(xs: seq<string>, d: char)
    requires |xs| >= 1 && NoSep(xs, d)
    ensures Split(Join(xs, d), d) == xs
    decreases |xs|, |xs[0]|
  {
    if |xs[0]| == 0 {
      if |xs| > 1 {
        SplitJoin(xs[1..], d);
        assert Join(xs, d) == [d] + Join(xs[1..], d);
        assert Join(xs, d)[1..] == Join(xs[1..], d);
        assert xs == [""] + xs[1..];
      }
    } else {
      var c := xs[0][0];
      var ys := [xs[0][1..]] + xs[1..];
      assert NoSep(ys, d) by {
        forall i | 0 <= i < |ys| ensures d !in ys[i] {
          if i == 0 { assert xs[0] == [c] + xs[0][1..]; } else { assert ys[i] == xs[i]; }
        }
      }
      SplitJoin(ys, d);
      assert c != d by { assert c in xs[0]; }
      JoinCons(c, ys, d);
      assert [[c] + ys[0]] + ys[1..] == xs by { assert [c] + xs[0][1..] == xs[0]; }
    }
  }

  /** Putting one character in front of the first token. */
  lemma {:induction false} JoinCons(c: char, ys: seq<string>, d: char)
    requires |ys| >= 1
    ensures Join([[c] + ys[0]] + ys[1..], d) == [c] + Join(ys, d)
    ensures (Join([[c] + ys[0]] + ys[1..], d))[1..] == Join(ys, d)
  {
    var xs := [[c] + ys[0]] + ys[1..];
    if |ys| > 1 {
      assert xs[1..] == ys[1..];
    }
  }

  /** `std::getline` on `d` until the stream ends: like `Split`, except that
      an empty text gives no token and a trailing empty token is dropped. */
  function GetlineSplit(s: string, d: char): (r: seq<string>)
    ensures |s| > 0 ==> |r| >= 1
    ensures |s| == 0 ==> r == []
    ensures NoSep(r, d)
  {
    if |s| == 0 then []
    else
      var ps := Split(s, d);
      if |ps| > 1 && ps[|ps| - 1] == "" then ps[..|ps| - 1] else ps
  }

  /** A text ends in a separator exactly when its split ends in an empty
      token after at least one other. */
  lemma {:induction false} SplitTrailing(s: string, d: char)
    requires |s| > 0
    ensures (s[|s| - 1] == d) <==> (|Split(s, d)| > 1 && Split(s, d)[|Split(s, d)| - 1] == "")
    decreases |s|
  {
    var rest := Split(s[1..], d);
    if |s| == 1 {
      assert s[1..] == "";
    } else {
      SplitTrailing(s[1..], d);
      assert s[|s| - 1] == s[1..][|s[1..]| - 1];
      if s[0] != d {
        if |rest| == 1 {
          assert Split(s, d) == [[s[0]] + rest[0]];
          assert rest[0] == Join(rest, d) by { }
          JoinSplit(s[1..], d);
          assert s[1..] == rest[0];
          assert s[1..][|s[1..]| - 1] in rest[0];
          assert s[|s| - 1] != d by { assert d !in rest[0]; }
        }
      }
    }
  }

  // ---------------------------------------------------------------------
  // Case swapping

  predicate IsUpper(c: char) { 'A' <= c <= 'Z' }
  predicate IsLower(c: char) { 'a' <= c <= 'z' }

  /** One character with its ASCII case swapped; everything else, digits and
      separators included, is unchanged. */
  function SwapChar(c: char): (r: char)
    ensures IsUpper(c) <==> IsLower(r)
    ensures IsLower(c) <==> IsUpper(r)
    ensures !IsUpper(c) && !IsLower(c) ==> r == c
    ensures (c as int) % 32 == (r as int) % 32
  {
    if IsLower(c) then (c as int - 32) as char
    else if IsUpper(c) then (c as int + 32) as char
    else c
  }

  lemma SwapCharInvolution(c: char)
    ensures SwapChar(SwapChar(c)) == c
  {
  }

  /** `str.swapcase()` and the `islower`/`isupper` loops: every character
      swapped in place. */
  function SwapCase(s: string): (r: string)
    ensures |r| == |s|
    ensures forall i :: 0 <= i < |s| ==> r[i] == SwapChar(s[i])
    decreases |s|
  {
    if |s| == 0 then "" else [SwapChar(s[0])] + SwapCase(s[1..])
  }

  lemma SwapCaseInvolution(s: string)
    ensures SwapCase(SwapCase(s)) == s
  {
    var t := SwapCase(SwapCase(s));
    assert forall i :: 0 <= i < |s| ==> t[i] == s[i] by {
      forall i | 0 <= i < |s| ensures t[i] == s[i] { SwapCharInvolution(s[i]); }
    }
  }

  function SwapEach(xs: seq<string>): (r: seq<string>)
    ensures |r| == |xs|
    ensures forall i :: 0 <= i < |xs| ==> r[i] == SwapCase(xs[i])
    decreases |xs|
  {
    if |xs| == 0 then [] else [SwapCase(xs[0])] + SwapEach(xs[1..])
  }

  /** Case swapping commutes with joining on a separator that is not a
      letter. */
  lemma {:induction false} SwapCaseJoin(xs: seq<string>, d: char)
    requires !IsUpper(d) && !IsLower(d)
    ensures SwapCase(Join(xs, d)) == Join(SwapEach(xs), d)
    decreases |xs|
  {
    if |xs| > 1 {
      SwapCaseJoin(xs[1..], d);
      SwapCaseAppend(xs[0] + [d], Join(xs[1..], d));
      SwapCaseAppend(xs[0], [d]);
      assert SwapEach(xs)[1..] == SwapEach(xs[1..]);
      assert SwapCase([d]) == [d];
    }
  }

  lemma SwapCaseAppend(a: string, b: string)
    ensures SwapCase(a + b) == SwapCase(a) + SwapCase(b)
  {
  }

  /** A separator that is not a letter survives case swapping, so swapped
      tokens still contain none. */
  lemma SwapKeepsNoSep(xs: seq<string>, d: char)
    requires !IsUpper(d) && !IsLower(d) && NoSep(xs, d)
    ensures NoSep(SwapEach(xs), d)
  {
    forall i | 0 <= i < |xs| ensures d !in SwapEach(xs)[i] {
      SwapCaseKeepsOut(xs[i], d);
    }
  }

  lemma SwapCaseKeepsOut(s: string, d: char)
    requires !IsUpper(d) && !IsLower(d) && d !in s
    ensures d !in SwapCase(s)
  {
    forall j | 0 <= j < |s| ensures SwapCase(s)[j] != d {
      assert s[j] in s;
    }
  }

  function Reverse<T>(xs: seq<T>): (r: seq<T>)
    ensures |r| == |xs|
    ensures forall i :: 0 <= i < |xs| ==> r[i] == xs[|xs| - 1 - i]
  {
    seq(|xs|, i requires 0 <= i < |xs| => xs[|xs| - 1 - i])
  }

  // ---------------------------------------------------------------------
  // The two mirrors

  /** The placement field mirrored: ranks in reverse order, letters with
      their case swapped. */
  function MirrorPlacement(rows: seq<string>): string
  {
    Join(SwapEach(Reverse(rows)), '/')
  }

  /** The side to move: exactly "b" becomes "w", anything else "b". */
  function FlipSide(side: string): (r: string)
    ensures r == "w" || r == "b"
    ensures r == "w" <==> side == "b"
    ensures (side == "w" || side == "b") ==> r != side
  {
    if side == "b" then "w" else "b"
  }

  /** On the two real sides, flipping twice gives the side back. */
  lemma FlipSideInvolution(side: string)
    requires side == "w" || side == "b"
    ensures FlipSide(FlipSide(side)) == side
  {
  }

  /** `mirror_fen` of scripts/mirror_fen.py; `None` where indexing the
      fields raises `IndexError`, that is with fewer than three fields. */
  function MirrorFenPy(fen: string): (r: Option<string>)
    ensures r.Some? <==> |Split(fen, ' ')| >= 3
  {
    var parts := Split(fen, ' ');
    if |parts| < 3 then None
    else
      var mirrored := SwapCase(Join(Reverse(Split(parts[0], '/')), '/'));
      Some(Join([mirrored, FlipSide(parts[1]), SwapCase(parts[2])] + parts[3..], ' '))
  }

  /** `mirrorFen` of src/utils.cpp. It reads `parts[1]` and `parts[2]`
      unchecked, so the text must have at least three fields. On a text
      whose fields and ranks do not end in an empty token it gives what
      the script gives. */
  function MirrorFenCpp(fen: string): (r: string)
    requires |GetlineSplit(fen, ' ')| >= 3
    ensures NoTrailingSeparators(fen) ==> MirrorFenPy(fen) == Some(r)
  {
    var parts := GetlineSplit(fen, ' ');
    var mirrored := Join(SwapEach(Reverse(GetlineSplit(parts[0], '/'))), '/');
    var out := Join([mirrored, FlipSide(parts[1]), SwapCase(parts[2])] + parts[3..], ' ');
    assert NoTrailingSeparators(fen) ==> MirrorFenPy(fen) == Some(out) by {
      if NoTrailingSeparators(fen) {
        var ps := Split(fen, ' ');
        GetlineNoTrailing(fen, ' ');
        var rows := Split(ps[0], '/');
        GetlineNoTrailing(ps[0], '/');
        SwapCaseJoin(Reverse(rows), '/');
      }
    }
    out
  }

  /** Neither the text ends in a space nor its placement field in a '/'. */
  predicate NoTrailingSeparators(fen: string)
  {
    |fen| > 0 && fen[|fen| - 1] != ' ' &&
    var p0 := Split(fen, ' ')[0]; |p0| > 0 && p0[|p0| - 1] != '/'
  }

  /** The fields of the Python mirror's result, read back: the placement is
      the reversed ranks with swapped case (so digits and '/' are unchanged
      and the rank count is kept), the side is flipped, the castling field
      is case-swapped in place, later fields are verbatim, and the number of
      fields is the same. */
  lemma MirrorFenPyFields(fen: string)
    requires |Split(fen, ' ')| >= 3
    ensures var parts := Split(fen, ' ');
      var rows := Split(parts[0], '/');
      var out := Split(MirrorFenPy(fen).value, ' ');
      && |out| == |parts|
      && out[0] == MirrorPlacement(rows)
      && Split(out[0], '/') == SwapEach(Reverse(rows))
      && |Split(out[0], '/')| == |rows|
      && out[1] == FlipSide(parts[1])
      && out[2] == SwapCase(parts[2])
      && out[3..] == parts[3..]
  {
    var parts := Split(fen, ' ');
    var rows := Split(parts[0], '/');
    SwapCaseJoin(Reverse(rows), '/');
    var mirrored := SwapCase(Join(Reverse(rows), '/'));
    assert mirrored == MirrorPlacement(rows);
    MirrorPlacementSplit(rows);
    var fields := [mirrored, FlipSide(parts[1]), SwapCase(parts[2])] + parts[3..];
    FieldsNoSep(parts, mirrored);
    SplitJoin(fields, ' ');
  }

  /** The mirrored placement splits back into the swapped reversed ranks
      and contains no space. */
  lemma MirrorPlacementSplit(rows: seq<string>)
    requires |rows| >= 1 && NoSep(rows, '/')
    ensures Split(MirrorPlacement(rows), '/') == SwapEach(Reverse(rows))
  {
    assert NoSep(Reverse(rows), '/') by {
      forall i | 0 <= i < |rows| ensures '/' !in Reverse(rows)[i] {
        assert Reverse(rows)[i] == rows[|rows| - 1 - i];
      }
    }
    SwapKeepsNoSep(Reverse(rows), '/');
    SplitJoin(SwapEach(Reverse(rows)), '/');
  }

  /** A field derived from space-free fields by case swapping and the side
      flip still has no space. */
  lemma FieldsNoSep(parts: seq<string>, mirrored: string)
    requires |parts| >= 3 && NoSep(parts, ' ')
    requires mirrored == SwapCase(Join(Reverse(Split(parts[0], '/')), '/'))
    ensures NoSep([mirrored, FlipSide(parts[1]), SwapCase(parts[2])] + parts[3..], ' ')
  {
    var fields := [mirrored, FlipSide(parts[1]), SwapCase(parts[2])] + parts[3..];
    MirroredNoSpace(parts[0]);
    SwapCaseKeepsOut(parts[2], ' ');
    forall i | 0 <= i < |fields| ensures ' ' !in fields[i] {
      if i >= 3 { assert fields[i] == parts[i]; }
    }
  }

  /** Mirroring a placement without spaces introduces none. */
  lemma MirroredNoSpace(p0: string)
    requires ' ' !in p0
    ensures ' ' !in SwapCase(Join(Reverse(Split(p0, '/')), '/'))
  {
    var rows := Split(p0, '/');
    var rev := Reverse(rows);
    forall k | 0 <= k < |rev| ensures ' ' !in rev[k] {
      RowsNoSpace(p0, |rows| - 1 - k);
    }
    if ' ' in Join(rev, '/') {
      JoinChars(rev, '/', ' ');
    }
    SwapCaseKeepsOut(Join(rev, '/'), ' ');
  }

  /** A character of a joined text is the separator or a character of some
      token. */
  lemma {:induction false} JoinChars(xs: seq<string>, d: char, c: char)
    requires c != d && c in Join(xs, d)
    ensures exists k :: 0 <= k < |xs| && c in xs[k]
    decreases |xs|
  {
    if |xs| > 1 {
      var j := Join(xs[1..], d);
      assert Join(xs, d) == xs[0] + [d] + j;
      if c !in xs[0] {
        assert c in j;
        JoinChars(xs[1..], d, c);
        var k :| 0 <= k < |xs[1..]| && c in xs[1..][k];
        assert c in xs[k + 1];
      }
    }
  }

  /** A token of a split text only holds characters of that text. */
  lemma RowsNoSpace(s: string, k: int)
    requires ' ' !in s && 0 <= k < |Split(s, '/')|
    ensures ' ' !in Split(s, '/')[k]
  {
    JoinSplit(s, '/');
    if ' ' in Split(s, '/')[k] {
      JoinHas(Split(s, '/'), '/', k);
    }
  }

  /** Every token of a join is contained in it. */
  lemma {:induction false} JoinHas(xs: seq<string>, d: char, k: int)
    requires 0 <= k < |xs|
    ensures forall c :: c in xs[k] ==> c in Join(xs, d)
    decreases |xs|
  {
    if |xs| > 1 {
      assert Join(xs, d) == xs[0] + [d] + Join(xs[1..], d);
      if k > 0 {
        JoinHas(xs[1..], d, k - 1);
        assert xs[1..][k - 1] == xs[k];
      }
    }
  }

  /** Reversing twice and swapping twice restore the ranks. */
  lemma RowsInvolution(rows: seq<string>)
    ensures SwapEach(Reverse(SwapEach(Reverse(rows)))) == rows
  {
    var r := SwapEach(Reverse(SwapEach(Reverse(rows))));
    forall i | 0 <= i < |rows| ensures r[i] == rows[i] {
      SwapCaseInvolution(rows[i]);
    }
  }

  /** Mirroring the ranks of a mirrored placement gives it back. */
  lemma PlacementBack(p0: string, rows2: seq<string>)
    requires rows2 == SwapEach(Reverse(Split(p0, '/')))
    ensures SwapCase(Join(Reverse(rows2), '/')) == p0
  {
    SwapCaseJoin(Reverse(rows2), '/');
    RowsInvolution(Split(p0, '/'));
    JoinSplit(p0, '/');
  }

  /** The script's mirror of a text whose fields are `ps`, field by field. */
  lemma MirrorOfFields(f: string, ps: seq<string>)
    requires ps == Split(f, ' ') && |ps| >= 3
    ensures MirrorFenPy(f) ==
      Some(Join([SwapCase(Join(Reverse(Split(ps[0], '/')), '/')), FlipSide(ps[1]), SwapCase(ps[2])] + ps[3..], ' '))
  {
  }

  /** The fields of the mirrored text, mirrored once more, are the
      original fields. */
  lemma MirroredFieldsBack(fen: string)
    requires |Split(fen, ' ')| >= 3
    requires Split(fen, ' ')[1] in {"w", "b"}
    ensures var parts := Split(fen, ' ');
      var out := Split(MirrorFenPy(fen).value, ' ');
      |out| == |parts| &&
      SwapCase(Join(Reverse(Split(out[0], '/')), '/')) == parts[0] &&
      FlipSide(out[1]) == parts[1] && SwapCase(out[2]) == parts[2] && out[3..] == parts[3..]
  {
    var parts := Split(fen, ' ');
    MirrorFenPyFields(fen);
    var out := Split(MirrorFenPy(fen).value, ' ');
    PlacementBack(parts[0], Split(out[0], '/'));
    SwapCaseInvolution(parts[2]);
  }

  /** Three fields and the rest, put back together. */
  lemma Refields(parts: seq<string>, a: string, b: string, c: string, rest: seq<string>)
    requires |parts| >= 3 && a == parts[0] && b == parts[1] && c == parts[2] && rest == parts[3..]
    ensures [a, b, c] + rest == parts
  {
  }

  /** Mirroring twice gives the original text back whenever the side to
      move is "w" or "b". */
  lemma MirrorFenPyInvolution(fen: string)
    requires |Split(fen, ' ')| >= 3
    requires Split(fen, ' ')[1] in {"w", "b"}
    ensures MirrorFenPy(fen).Some?
    ensures MirrorFenPy(MirrorFenPy(fen).value) == Some(fen)
  {
    var parts := Split(fen, ' ');
    var once := MirrorFenPy(fen).value;
    MirroredFieldsBack(fen);
    var out := Split(once, ' ');
    MirrorOfFields(once, out);
    Refields(parts, SwapCase(Join(Reverse(Split(out[0], '/')), '/')), FlipSide(out[1]), SwapCase(out[2]), out[3..]);
    JoinSplit(fen, ' ');
  }

  /** When neither the fields nor the ranks end in an empty token, the C++
      mirror and the script produce the same text. */
  lemma MirrorFenAgree(fen: string)
    requires |fen| > 0 && fen[|fen| - 1] != ' '
    requires |Split(fen, ' ')| >= 3
    requires var p0 := Split(fen, ' ')[0]; |p0| > 0 && p0[|p0| - 1] != '/'
    ensures |GetlineSplit(fen, ' ')| >= 3
    ensures MirrorFenPy(fen) == Some(MirrorFenCpp(fen))
  {
    var parts := Split(fen, ' ');
    GetlineNoTrailing(fen, ' ');
    assert GetlineSplit(fen, ' ') == parts;
    var rows := Split(parts[0], '/');
    GetlineNoTrailing(parts[0], '/');
    assert GetlineSplit(parts[0], '/') == rows;
    SwapCaseJoin(Reverse(rows), '/');
  }

  /** Without a trailing separator `getline` and `split` agree. */
  lemma GetlineNoTrailing(s: string, d: char)
    requires |s| > 0 && s[|s| - 1] != d
    ensures GetlineSplit(s, d) == Split(s, d)
  {
    SplitTrailing(s, d);
  }

  /** A trailing space is where the two differ: the script keeps an empty
      last field and so ends its output with a space, the C++ version does
      not. */
  lemma MirrorFenTrailingSpace()
    ensures MirrorFenPy("8/8 w - ") == Some("8/8 b - ")
    ensures MirrorFenCpp("8/8 w - ") == "8/8 b -"
  {
    TrailingSplits();
    TrailingPlacement();
    TrailingJoins();
  }

  lemma TrailingTail()
    ensures Split("w - ", ' ') == ["w", "-", ""]
  {
    assert Split(" ", ' ') == ["", ""] by { assert " "[1..] == ""; }
    assert Split("- ", ' ') == ["-", ""] by {
      assert "- "[1..] == " " && ['-'] + "" == "-";
      assert [['-'] + ""] + [""] == ["-", ""];
    }
    assert Split(" - ", ' ') == ["", "-", ""] by { assert " - "[1..] == "- "; }
    assert Split("w - ", ' ') == ["w", "-", ""] by {
      assert "w - "[1..] == " - " && ['w'] + "" == "w";
      assert [['w'] + ""] + ["-", ""] == ["w", "-", ""];
    }
  }

  lemma TrailingFields()
    ensures Split("8/8 w - ", ' ') == ["8/8", "w", "-", ""]
  {
    var fen := "8/8 w - ";
    TrailingTail();
    assert Split(" w - ", ' ') == ["", "w", "-", ""] by { assert " w - "[1..] == "w - "; }
    assert Split("8 w - ", ' ') == ["8", "w", "-", ""] by {
      assert "8 w - "[1..] == " w - " && ['8'] + "" == "8";
      assert [['8'] + ""] + ["w", "-", ""] == ["8", "w", "-", ""];
    }
    assert Split("/8 w - ", ' ') == ["/8", "w", "-", ""] by {
      assert "/8 w - "[1..] == "8 w - " && ['/'] + "8" == "/8";
      assert [['/'] + "8"] + ["w", "-", ""] == ["/8", "w", "-", ""];
    }
    assert Split(fen, ' ') == ["8/8", "w", "-", ""] by {
      assert fen[1..] == "/8 w - " && ['8'] + "/8" == "8/8";
      assert [['8'] + "/8"] + ["w", "-", ""] == ["8/8", "w", "-", ""];
    }
  }

  lemma TrailingSplits()
    ensures Split("8/8 w - ", ' ') == ["8/8", "w", "-", ""]
    ensures GetlineSplit("8/8 w - ", ' ') == ["8/8", "w", "-"]
  {
    TrailingFields();
  }

  lemma TrailingPlacement()
    ensures Split("8/8", '/') == ["8", "8"]
    ensures GetlineSplit("8/8", '/') == ["8", "8"]
    ensures SwapCase(Join(Reverse(["8", "8"]), '/')) == "8/8"
    ensures Join(SwapEach(Reverse(["8", "8"])), '/') == "8/8"
    ensures SwapCase("-") == "-"
  {
    assert "8/8"[1..] == "/8" && "/8"[1..] == "8" && "8"[1..] == "";
    assert Split("8", '/') == ["8"] by {
      assert Split("", '/') == [""];
      assert ['8'] + "" == "8";
    }
    assert Split("/8", '/') == ["", "8"];
    assert Split("8/8", '/') == [['8'] + ""] + ["8"];
    var rev := Reverse(["8", "8"]);
    assert rev == ["8", "8"];
    assert Join(rev, '/') == "8/8" by { assert rev[1..] == ["8"]; }
    assert SwapCase("8") == "8";
    assert SwapEach(rev) == ["8", "8"] by { assert rev[1..] == ["8"]; }
    assert SwapCase("8/8") == "8/8";
    assert SwapCase("-") == "-" by { assert "-"[1..] == ""; }
  }

  lemma TrailingJoins()
    ensures Join(["8/8", "b", "-"] + ["8/8", "w", "-", ""][3..], ' ') == "8/8 b - "
    ensures Join(["8/8", "b", "-"] + ["8/8", "w", "-"][3..], ' ') == "8/8 b -"
  {
    var py := ["8/8", "b", "-"] + ["8/8", "w", "-", ""][3..];
    assert py == ["8/8", "b", "-", ""];
    assert py[1..] == ["b", "-", ""] && py[1..][1..] == ["-", ""] && py[1..][1..][1..] == [""];
    assert Join([""], ' ') == "";
    assert Join(["-", ""], ' ') == "- ";
    assert Join(["b", "-", ""], ' ') == "b - ";
    var cpp := ["8/8", "b", "-"] + ["8/8", "w", "-"][3..];
    assert cpp == ["8/8", "b", "-"];
    assert cpp[1..] == ["b", "-"] && cpp[1..][1..] == ["-"];
    assert Join(["-"], ' ') == "-";
    assert Join(["b", "-"], ' ') == "b -";
  }
}
