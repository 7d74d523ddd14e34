/** Joining and splitting strings on a separator, as done by
    `Array.prototype.join` and `String.prototype.split`. */
module Text {

  predicate StartsWith(s: string, prefix: string) {
    |prefix| <= |s| && s[..|prefix|] == prefix
  }

  /** `lines.join(sep)`. */
  function Join(lines: seq<string>, sep: string): string
  {
    if |lines| == 0 then ""
    else if |lines| == 1 then lines[0]
    else lines[0] + sep + Join(lines[1..], sep)
  }

  /** `s.split(sep)` for a non-empty separator: the maximal pieces of `s`
      between occurrences of `sep`, scanned from the left. */
  function Split(s: string, sep: string): (r: seq<string>)
    requires |sep| >= 1
    ensures |r| >= 1
    decreases |s|
  {
    if |s| == 0 then [""]
    else if StartsWith(s, sep) then [""] + Split(s[|sep|..], sep)
    else
      var rest := Split(s[1..], sep);
      [[s[0]] + rest[0]] + rest[1..]
  }

  /** None of the strings contains the separator's first character. */
  predicate Free(lines: seq<string>, sep: string)
    requires |sep| >= 1
  {
    forall i :: 0 <= i < |lines| ==> sep[0] !in lines[i]
  }

  /** A piece free of the separator's first character is not split. */
  lemma {:induction false} SplitFree(a: string, sep: string)
    requires |sep| >= 1 && sep[0] !in a
    ensures Split(a, sep) == [a]
    decreases |a|
  {
    if |a| > 0 {
      assert a[0] != sep[0];
      assert !StartsWith(a, sep);
      SplitFree(a[1..], sep);
      assert [a[0]] + a[1..] == a;
    }
  }

  /** Splitting stops at the first separator when the piece before it is free
      of the separator's first character. */
  lemma {:induction false} SplitAfterFree(a: string, sep: string, b: string)
    requires |sep| >= 1 && sep[0] !in a
    ensures Split(a + sep + b, sep) == [a] + Split(b, sep)
    decreases |a|
  {
    var s := a + sep + b;
    if |a| == 0 {
      assert s == sep + b;
      assert StartsWith(s, sep);
      assert s[|sep|..] == b;
    } else {
      assert s[0] == a[0] && a[0] != sep[0];
      assert !StartsWith(s, sep);
      assert s[1..] == a[1..] + sep + b;
      SplitAfterFree(a[1..], sep, b);
      assert [a[0]] + a[1..] == a;
    }
  }

  /** Splitting undoes joining when no piece contains the separator's first
      character. */
  lemma {:induction false} SplitJoin(lines: seq<string>, sep: string)
    requires |sep| >= 1 && |lines| >= 1 && Free(lines, sep)
    ensures Split(Join(lines, sep), sep) == lines
    decreases |lines|
  {
    if |lines| == 1 {
      SplitFree(lines[0], sep);
    } else {
      SplitAfterFree(lines[0], sep, Join(lines[1..], sep));
      SplitJoin(lines[1..], sep);
      assert [lines[0]] + lines[1..] == lines;
    }
  }
}
