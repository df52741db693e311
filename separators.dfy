/**
 * Separator-joined strings, as the JDBC connector builds them with
 * ostringstream, and the splitting that reads them back.
 */
module Separators {
  /** The fields of s between occurrences of the separator c ("" gives one empty field). */
  function Split(s: string, c: char): (r: seq<string>)
    ensures |r| > 0
  {
    if s == [] then [""]
    else
      var rest := Split(s[1..], c);
      if s[0] == c then [""] + rest else [[s[0]] + rest[0]] + rest[1..]
  }

  /** The strings with c between neighbours, as `(i != 0 ? sep : "") << x` appends them. */
  function Join(xs: seq<string>, c: char): string {
    if xs == [] then ""
    else if |xs| == 1 then xs[0]
    else Join(xs[..|xs| - 1], c) + [c] + xs[|xs| - 1]
  }

  /** Every string followed by c, as `x << sep` appends them. */
  function Terminated(xs: seq<string>, c: char): (s: string)
    ensures xs != [] ==> |s| > 0 && s[|s| - 1] == c
  {
    if xs == [] then "" else Terminated(xs[..|xs| - 1], c) + xs[|xs| - 1] + [c]
  }

  /** The string does not contain the separator. */
  predicate Clean(s: string, c: char) {
    s == [] || (s[0] != c && Clean(s[1..], c))
  }

  lemma {:induction false} CleanMeans(s: string, c: char)
    ensures Clean(s, c) <==> c !in s
  {
    if s != [] {
      CleanMeans(s[1..], c);
      assert s == [s[0]] + s[1..];
    }
  }

  /** No string of the list contains the separator. */
  predicate Free(xs: seq<string>, c: char) {
    xs == [] || (Free(xs[..|xs| - 1], c) && Clean(xs[|xs| - 1], c))
  }

  /** Free holds exactly when no element contains the separator. */
  lemma {:induction false} FreeMeans(xs: seq<string>, c: char)
    ensures Free(xs, c) <==> forall i :: 0 <= i < |xs| ==> c !in xs[i]
  {
    if xs != [] {
      var init := xs[..|xs| - 1];
      FreeMeans(init, c);
      CleanMeans(xs[|xs| - 1], c);
      assert forall i :: 0 <= i < |init| ==> init[i] == xs[i];
    }
  }

  lemma {:induction false} SplitFront(x: string, t: string, c: char)
    requires Clean(x, c)
    ensures Split(x + [c] + t, c) == [x] + Split(t, c)
  {
    if x == [] {
      assert x + [c] + t == [c] + t;
      assert ([c] + t)[1..] == t;
    } else {
      SplitFront(x[1..], t, c);
      assert (x + [c] + t)[1..] == x[1..] + [c] + t;
      assert [x[0]] + x[1..] == x;
    }
  }

  lemma {:induction false} SplitNoSeparator(x: string, c: char)
    requires Clean(x, c)
    ensures Split(x, c) == [x]
  {
    if x != [] {
      SplitNoSeparator(x[1..], c);
      assert [x[0]] + x[1..] == x;
    }
  }

  /** Splitting a terminated list followed by y gives the list, then the fields of y. */
  lemma {:induction false} SplitTerminated(xs: seq<string>, y: string, c: char)
    requires Free(xs, c)
    ensures Split(Terminated(xs, c) + y, c) == xs + Split(y, c)
    decreases |xs|
  {
    if xs == [] {
      assert Terminated(xs, c) + y == y;
    } else {
      var init, last := xs[..|xs| - 1], xs[|xs| - 1];
      assert xs == init + [last];
      SplitTerminated(init, last + [c] + y, c);
      SplitTerminatedStep(init, last, y, c);
    }
  }

  lemma SplitTerminatedStep(init: seq<string>, last: string, y: string, c: char)
    requires Clean(last, c)
    requires Split(Terminated(init, c) + (last + [c] + y), c) == init + Split(last + [c] + y, c)
    ensures Split(Terminated(init + [last], c) + y, c) == (init + [last]) + Split(y, c)
  {
    var xs := init + [last];
    assert xs[..|init|] == init;
    TerminatedLast(xs, y, c);
    SplitFront(last, y, c);
  }

  /** A terminated non-empty list followed by y is its initial part followed by the last string, c and y. */
  lemma TerminatedLast(xs: seq<string>, y: string, c: char)
    requires |xs| > 0
    ensures Terminated(xs, c) + y == Terminated(xs[..|xs| - 1], c) + (xs[|xs| - 1] + [c] + y)
  {
  }

  /** A terminated list reads back as its strings and one empty field after the last separator. */
  lemma TerminatedRoundTrip(xs: seq<string>, c: char)
    requires Free(xs, c)
    ensures Split(Terminated(xs, c), c) == xs + [""]
  {
    SplitTerminated(xs, "", c);
    assert Terminated(xs, c) + "" == Terminated(xs, c);
  }

  lemma {:induction false} JoinIsTerminatedInit(xs: seq<string>, c: char)
    requires |xs| > 0
    ensures Join(xs, c) == Terminated(xs[..|xs| - 1], c) + xs[|xs| - 1]
  {
    if |xs| > 1 {
      var init := xs[..|xs| - 1];
      JoinIsTerminatedInit(init, c);
      assert init[..|init| - 1] == xs[..|xs| - 2];
    }
  }

  /** A joined non-empty list reads back as the list itself. */
  lemma JoinRoundTrip(xs: seq<string>, c: char)
    requires |xs| > 0 && Free(xs, c)
    ensures Split(Join(xs, c), c) == xs
  {
    var init, last := xs[..|xs| - 1], xs[|xs| - 1];
    JoinIsTerminatedInit(xs, c);
    SplitTerminated(init, last, c);
    SplitNoSeparator(last, c);
    assert xs == init + [last];
  }
}
