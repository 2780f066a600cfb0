/** Shared datatypes and the few sequence facts every other module leans on. */
module Common {

  datatype Option<+T> = None | Some(value: T)

  datatype Result<+T, +E> = Ok(value: T) | Err(error: E)

  type byte = x: int | 0 <= x < 256

  /** The bytes x sit in b at pos, and end before end. */
  ghost predicate At<T>(b: seq<T>, pos: nat, end: nat, x: seq<T>)
    requires end <= |b|
  {
    pos + |x| <= end && b[pos..pos + |x|] == x
  }

  /** A concatenation sits at a position exactly when its two halves sit there
      one after the other. */
  lemma AppendAt<T>(b: seq<T>, pos: nat, end: nat, x: seq<T>, y: seq<T>)
    requires end <= |b|
    ensures At(b, pos, end, x + y) <==> At(b, pos, end, x) && At(b, pos + |x|, end, y)
  {
    if pos + |x| + |y| <= end {
      var s, m := b[pos..pos + |x| + |y|], pos + |x|;
      assert s == b[pos..m] + b[m..m + |y|];
      if s == x + y {
        assert b[pos..m] == s[..|x|] == x;
        assert b[m..m + |y|] == s[|x|..] == y;
      }
    }
  }

  function Flatten<T>(parts: seq<seq<T>>): seq<T> {
    if parts == [] then [] else parts[0] + Flatten(parts[1..])
  }

  lemma {:induction false} FlattenSnoc<T>(parts: seq<seq<T>>, last: seq<T>)
    ensures Flatten(parts + [last]) == Flatten(parts) + last
  {
    if parts == [] {
      assert parts + [last] == [last] && [last][1..] == [];
    } else {
      assert (parts + [last])[1..] == parts[1..] + [last];
      FlattenSnoc(parts[1..], last);
      assert parts[0] + (Flatten(parts[1..]) + last) == parts[0] + Flatten(parts[1..]) + last;
    }
  }

  function Join<T>(parts: seq<seq<T>>, sep: T): seq<T> {
    if parts == [] then []
    else if |parts| == 1 then parts[0]
    else parts[0] + ([sep] + Join(parts[1..], sep))
  }

  function Split<T(==)>(s: seq<T>, sep: T): (r: seq<seq<T>>)
    ensures |r| > 0
  {
    if s == [] then [[]]
    else
      var rest := Split(s[1..], sep);
      if s[0] == sep then [[]] + rest else [[s[0]] + rest[0]] + rest[1..]
  }

  lemma {:induction false} SplitPlain<T>(x: seq<T>, sep: T)
    requires sep !in x
    ensures Split(x, sep) == [x]
  {
    if x != [] {
      assert x == [x[0]] + x[1..];
      SplitPlain(x[1..], sep);
    }
  }

  lemma {:induction false} SplitFirst<T>(x: seq<T>, rest: seq<T>, sep: T)
    requires sep !in x
    ensures Split(x + ([sep] + rest), sep) == [x] + Split(rest, sep)
  {
    if x == [] {
      assert x + ([sep] + rest) == [sep] + rest;
    } else {
      assert x == [x[0]] + x[1..];
      assert (x + ([sep] + rest))[1..] == x[1..] + ([sep] + rest);
      SplitFirst(x[1..], rest, sep);
    }
  }

  lemma {:induction false} SplitInvertsJoin<T>(parts: seq<seq<T>>, sep: T)
    requires parts != [] && forall p <- parts :: sep !in p
    ensures Split(Join(parts, sep), sep) == parts
  {
    if |parts| == 1 {
      SplitPlain(parts[0], sep);
      assert parts == [parts[0]];
    } else {
      SplitInvertsJoin(parts[1..], sep);
      SplitFirst(parts[0], Join(parts[1..], sep), sep);
      assert parts == [parts[0]] + parts[1..];
    }
  }

  /** Joining the pieces of a split gives the text back. */
  lemma {:induction false} JoinInvertsSplit<T>(s: seq<T>, sep: T)
    ensures Join(Split(s, sep), sep) == s
  {
    if s != [] {
      var rest := Split(s[1..], sep);
      JoinInvertsSplit(s[1..], sep);
      assert s == [s[0]] + s[1..];
      if s[0] == sep {
        assert ([[]] + rest)[1..] == rest;
      } else {
        var r := [[s[0]] + rest[0]] + rest[1..];
        assert r[1..] == rest[1..];
      }
    }
  }

  /** Cutting a list of parts anywhere and joining both halves around the
      separator is joining the whole. */
  lemma {:induction false} JoinCut<T>(parts: seq<seq<T>>, i: nat, sep: T)
    requires 0 < i < |parts|
    ensures Join(parts, sep) == Join(parts[..i], sep) + ([sep] + Join(parts[i..], sep))
  {
    if i > 1 {
      var rest := parts[1..];
      JoinCut(rest, i - 1, sep);
      assert parts[..i][1..] == rest[..i - 1] && parts[i..] == rest[i - 1..];
      assert parts[..i][0] == parts[0];
    } else {
      assert parts[..1] == [parts[0]];
    }
  }
}
