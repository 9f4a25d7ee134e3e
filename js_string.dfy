/** `String.prototype.split(" ")` on strings, and its inverse `join(" ")`. */
module JsString {

  /** `s.split(" ")`: the pieces between single spaces, empty pieces included; a string
      with no space is one piece, so there is always at least one. */
  function Split(s: string): (pieces: seq<string>)
    ensures |pieces| >= 1
    ensures forall i :: 0 <= i < |pieces| ==> ' ' !in pieces[i]
    decreases |s|
  {
    if s == [] then [""]
    else
      var rest := Split(s[1..]);
      if s[0] == ' ' then [""] + rest
      else [[s[0]] + rest[0]] + rest[1..]
  }

  /** `pieces.join(" ")`. */
  function Join(pieces: seq<string>): (s: string)
    requires |pieces| >= 1
  {
    if |pieces| == 1 then pieces[0] else pieces[0] + " " + Join(pieces[1..])
  }

  /** Joining the pieces with spaces gives back the string. */
  lemma {:induction false} JoinSplit(s: string)
    ensures Join(Split(s)) == s
    decreases |s|
  {
    if s != [] {
      var rest := Split(s[1..]);
      JoinSplit(s[1..]);
      if s[0] == ' ' {
        assert Split(s) == [""] + rest;
        assert Split(s)[1..] == rest;
      } else {
        var pieces := Split(s);
        assert pieces == [[s[0]] + rest[0]] + rest[1..];
        if |rest| == 1 {
          assert pieces == [[s[0]] + rest[0]];
        } else {
          assert pieces[1..] == rest[1..];
          assert Join(rest) == rest[0] + " " + Join(rest[1..]);
        }
        assert s == [s[0]] + s[1..];
      }
    }
  }

  /** A string without a space is a single piece. */
  lemma {:induction false} SplitNoSpace(w: string)
    requires ' ' !in w
    ensures Split(w) == [w]
    decreases |w|
  {
    if w != [] {
      SplitNoSpace(w[1..]);
      assert w == [w[0]] + w[1..];
    }
  }

  /** Splitting at a space splits the two sides independently. */
  lemma {:induction false} SplitAtSpace(a: string, b: string)
    ensures Split(a + " " + b) == Split(a) + Split(b)
    decreases |a|
  {
    var s := a + " " + b;
    if a == [] {
      assert s[0] == ' ' && s[1..] == b;
    } else {
      assert s[0] == a[0] && s[1..] == a[1..] + " " + b;
      SplitAtSpace(a[1..], b);
      var tail := Split(a[1..]);
      assert Split(s[1..]) == tail + Split(b);
      if a[0] != ' ' {
        assert (tail + Split(b))[0] == tail[0];
        assert (tail + Split(b))[1..] == tail[1..] + Split(b);
      }
    }
  }

  /** Two words with a space between them split into the two words. */
  lemma SplitTwoWords(a: string, b: string)
    requires ' ' !in a && ' ' !in b
    ensures Split(a + " " + b) == [a, b]
  {
    SplitAtSpace(a, b);
    SplitNoSpace(a);
    SplitNoSpace(b);
  }

  /** Two words, a space and any tail split into the two words followed by the tail's pieces. */
  lemma SplitTwoWordsThen(a: string, b: string, tail: string)
    requires ' ' !in a && ' ' !in b
    ensures Split(a + " " + b + " " + tail) == [a, b] + Split(tail)
  {
    assert a + " " + b + " " + tail == a + " " + (b + " " + tail);
    SplitAtSpace(a, b + " " + tail);
    SplitAtSpace(b, tail);
    SplitNoSpace(a);
    SplitNoSpace(b);
  }

  /** Pieces without spaces survive a join and a split: the other round trip. */
  lemma {:induction false} SplitJoin(pieces: seq<string>)
    requires |pieces| >= 1
    requires forall i :: 0 <= i < |pieces| ==> ' ' !in pieces[i]
    ensures Split(Join(pieces)) == pieces
    decreases |pieces|
  {
    SplitNoSpace(pieces[0]);
    if |pieces| > 1 {
      SplitJoin(pieces[1..]);
      SplitAtSpace(pieces[0], Join(pieces[1..]));
      assert pieces == [pieces[0]] + pieces[1..];
    }
  }

  /** The first two pieces read off the front of the string: there is one piece exactly
      when the string has no space (and then it is the string); otherwise the string
      starts with the first piece, a space and the second piece, followed by nothing or
      by a space. */
  lemma {:induction false} SplitFront(s: string)
    ensures var p := Split(s);
      && (|p| == 1 <==> ' ' !in s)
      && (|p| == 1 ==> p[0] == s)
      && (|p| >= 2 ==> p[0] + " " + p[1] <= s)
      && (|p| >= 2 && |p[0]| + 1 + |p[1]| < |s| ==> s[|p[0]| + 1 + |p[1]|] == ' ')
  {
    var p := Split(s);
    JoinSplit(s);
    if |p| >= 2 {
      assert s == p[0] + " " + Join(p[1..]);
      if |p| > 2 {
        assert Join(p[1..]) == p[1] + " " + Join(p[2..]) by {
          assert p[1..][0] == p[1] && p[1..][1..] == p[2..];
        }
        assert s == (p[0] + " " + p[1]) + (" " + Join(p[2..]));
      } else {
        assert Join(p[1..]) == p[1];
      }
      assert s[|p[0]|] == ' ';
    }
  }
}
