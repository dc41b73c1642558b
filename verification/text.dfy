/**
 The text helpers of the chain: splitting a line into words the way
 Rust's `str::split_whitespace` does (used by `feed_str`) and joining
 generated words with single spaces (`vec_to_string`).
 */
module Text {

  /**
   Rust's `char::is_whitespace`: the characters with the Unicode
   `White_Space` property.
   */
  predicate IsWhitespace(c: char) {
    var n := c as int;
    || (0x09 <= n <= 0x0D) || n == 0x20 || n == 0x85 || n == 0xA0 || n == 0x1680
    || (0x2000 <= n <= 0x200A) || n == 0x2028 || n == 0x2029 || n == 0x202F
    || n == 0x205F || n == 0x3000
  }

  /** A word as `split_whitespace` yields it: not empty, no whitespace inside. */
  predicate IsWord(w: string) {
    |w| > 0 && forall i :: 0 <= i < |w| ==> !IsWhitespace(w[i])
  }

  /** The characters of `s` that are not whitespace, in order. */
  function Visible(s: string): (r: string)
    ensures |r| <= |s|
  {
    if |s| == 0 then "" else (if IsWhitespace(s[0]) then "" else [s[0]]) + Visible(s[1..])
  }

  /** All words glued together. */
  function Concat(ws: seq<string>): string {
    if |ws| == 0 then "" else ws[0] + Concat(ws[1..])
  }

  /**
   `split_whitespace`: the maximal runs of non-whitespace characters, in
   order. A line that starts with a visible character starts a word.
   */
  function Split(s: string): (r: seq<string>)
    ensures |s| > 0 && !IsWhitespace(s[0]) ==> |r| > 0
    decreases |s|
  {
    if |s| == 0 then []
    else
      var rest := Split(s[1..]);
      if IsWhitespace(s[0]) then rest
      else if |s| > 1 && !IsWhitespace(s[1]) then [[s[0]] + rest[0]] + rest[1..]
      else [[s[0]]] + rest
  }

  /** Leading, trailing and repeated whitespace produce no empty words, and no word holds whitespace. */
  lemma {:induction false} SplitWords(s: string)
    ensures forall i :: 0 <= i < |Split(s)| ==> IsWord(Split(s)[i])
    decreases |s|
  {
    if |s| > 0 {
      SplitWords(s[1..]);
      var rest := Split(s[1..]);
      if !IsWhitespace(s[0]) && |s| > 1 && !IsWhitespace(s[1]) {
        var w := [s[0]] + rest[0];
        assert IsWord(w) by {
          assert forall i :: 1 <= i < |w| ==> w[i] == rest[0][i - 1];
        }
        assert Split(s) == [w] + rest[1..];
      }
    }
  }

  /** Splitting loses exactly the whitespace: the words glued together are the visible characters. */
  lemma {:induction false} SplitVisible(s: string)
    ensures Concat(Split(s)) == Visible(s)
    decreases |s|
  {
    if |s| > 0 {
      SplitVisible(s[1..]);
      var rest := Split(s[1..]);
      if IsWhitespace(s[0]) {
        assert Visible(s) == Visible(s[1..]);
      } else if |s| > 1 && !IsWhitespace(s[1]) {
        var w := [s[0]] + rest[0];
        var r := [w] + rest[1..];
        assert r[1..] == rest[1..];
        assert Concat(rest) == rest[0] + Concat(rest[1..]);
        assert Concat(r) == w + Concat(rest[1..]);
        assert Visible(s) == [s[0]] + Visible(s[1..]);
      } else {
        var r := [[s[0]]] + rest;
        assert r[1..] == rest;
        assert Visible(s) == [s[0]] + Visible(s[1..]);
      }
    }
  }

  /** A line gives no words exactly when it is all whitespace. */
  lemma {:induction false} SplitEmpty(s: string)
    ensures Split(s) == [] <==> forall i :: 0 <= i < |s| ==> IsWhitespace(s[i])
    decreases |s|
  {
    if |s| > 0 && IsWhitespace(s[0]) {
      SplitEmpty(s[1..]);
      assert forall i :: 1 <= i < |s| ==> s[i] == s[1..][i - 1];
    }
  }

  /** Words joined with exactly one space between neighbours and none at the ends. */
  function Join(ws: seq<string>): (r: string)
    ensures |ws| == 0 ==> r == ""
    decreases |ws|
  {
    if |ws| == 0 then ""
    else if |ws| == 1 then ws[0]
    else ws[0] + " " + Join(ws[1..])
  }

  /** Joining one more word at the end adds a space and the word. */
  lemma {:induction false} JoinSnoc(ws: seq<string>, w: string)
    requires |ws| > 0
    ensures Join(ws + [w]) == Join(ws) + " " + w
    decreases |ws|
  {
    if |ws| == 1 {
      assert ws + [w] == [ws[0], w];
    } else {
      assert (ws + [w])[1..] == ws[1..] + [w];
      JoinSnoc(ws[1..], w);
    }
  }

  /** Every word followed by one space: what the loop of `vec_to_string` builds before trimming. */
  function Spaced(ws: seq<string>): string
    decreases |ws|
  {
    if |ws| == 0 then "" else Spaced(ws[..|ws| - 1]) + ws[|ws| - 1] + " "
  }

  /** Trimming the last character of the spaced form gives the joined form. */
  lemma {:induction false} SpacedIsJoin(ws: seq<string>)
    requires |ws| > 0
    ensures Spaced(ws) == Join(ws) + " "
    decreases |ws|
  {
    var init, last := ws[..|ws| - 1], ws[|ws| - 1];
    if |ws| == 1 {
      assert init == [];
    } else {
      SpacedIsJoin(init);
      JoinSnoc(init, last);
      assert init + [last] == ws;
    }
  }

  /**
   `vec_to_string`: appends every word and a space, then drops the final
   character when the text is not empty. The result is `Join(ws)`.
   */
  method VecToString(ws: seq<string>) returns (r: string)
    ensures r == Join(ws)
    ensures |ws| > 0 ==> |r| == |Concat(ws)| + |ws| - 1
  {
    var ret := "";
    var i := 0;
    while i < |ws|
      invariant 0 <= i <= |ws|
      invariant ret == Spaced(ws[..i])
    {
      assert ws[..i + 1][..i] == ws[..i];
      ret := ret + ws[i];
      ret := ret + " ";
      i := i + 1;
    }
    assert ws[..|ws|] == ws;
    if |ret| > 0 {
      ret := ret[..|ret| - 1];
    }
    if |ws| > 0 {
      SpacedIsJoin(ws);
      JoinLength(ws);
    }
    r := ret;
  }

  /** The joined text holds every character of every word plus one separator per gap. */
  lemma {:induction false} JoinLength(ws: seq<string>)
    requires |ws| > 0
    ensures |Join(ws)| == |Concat(ws)| + |ws| - 1
    decreases |ws|
  {
    if |ws| > 1 {
      JoinLength(ws[1..]);
    }
  }

  /** A word followed by whitespace or by nothing splits off as the first word. */
  lemma {:induction false} SplitWord(w: string, rest: string)
    requires IsWord(w)
    requires |rest| == 0 || IsWhitespace(rest[0])
    ensures Split(w + rest) == [w] + Split(rest)
    decreases |w|
  {
    var s := w + rest;
    assert s[1..] == w[1..] + rest;
    assert s[0] == w[0];
    if |w| == 1 {
      assert s[1..] == rest;
      assert |s| > 1 ==> s[1] == rest[0];
      assert w == [s[0]];
    } else {
      assert s[1] == w[1];
      SplitWord(w[1..], rest);
      assert [w[0]] + w[1..] == w;
    }
  }

  /**
   Round trip: splitting the joined text gives back the words, whenever
   they are words as `split_whitespace` produces them.
   */
  lemma {:induction false} SplitJoin(ws: seq<string>)
    requires forall i :: 0 <= i < |ws| ==> IsWord(ws[i])
    ensures Split(Join(ws)) == ws
    decreases |ws|
  {
    if |ws| == 1 {
      SplitWord(ws[0], "");
      assert ws[0] + "" == ws[0];
    } else if |ws| > 1 {
      SplitJoin(ws[1..]);
      var tail := " " + Join(ws[1..]);
      SplitWord(ws[0], tail);
      assert ws[0] + " " + Join(ws[1..]) == ws[0] + tail;
      assert Split(tail) == Split(Join(ws[1..])) by {
        assert tail[1..] == Join(ws[1..]);
      }
    }
  }
}
