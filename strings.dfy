/** Python's `str.split(sep)` and `sep.join(parts)` for a one-character separator. */
module Strings {

  /** `s.split(sep)`: the fields between separators, empty fields included, so there is always one. */
  function Split(s: string, sep: char): (fields: seq<string>)
    ensures |fields| >= 1
    ensures forall k :: 0 <= k < |fields| ==> sep !in fields[k]
  {
    if s == [] then [[]]
    else
      var rest := Split(s[1..], sep);
      if s[0] == sep then [[]] + rest else [[s[0]] + rest[0]] + rest[1..]
  }

  /** `sep.join(parts)`. */
  function Join(parts: seq<string>, sep: char): string
  {
    if |parts| == 0 then []
    else if |parts| == 1 then parts[0]
    else parts[0] + [sep] + Join(parts[1..], sep)
  }

  lemma JoinCons(part: string, parts: seq<string>, sep: char)
    ensures Join([part] + parts, sep) == if parts == [] then part else part + [sep] + Join(parts, sep)
  {
    assert ([part] + parts)[1..] == parts;
  }

  /** Joining the fields of a split gives back the string. */
  lemma {:induction false} JoinSplit(s: string, sep: char)
    ensures Join(Split(s, sep), sep) == s
  {
    if s != [] {
      var rest := Split(s[1..], sep);
      JoinSplit(s[1..], sep);
      if s[0] == sep {
        JoinCons([], rest, sep);
      } else {
        JoinCons(rest[0], rest[1..], sep);
        JoinCons([s[0]] + rest[0], rest[1..], sep);
        assert [rest[0]] + rest[1..] == rest;
      }
    }
  }

  /** A string without the separator is a single field. */
  lemma {:induction false} SplitSingle(s: string, sep: char)
    requires sep !in s
    ensures Split(s, sep) == [s]
  {
    if s != [] {
      SplitSingle(s[1..], sep);
      assert [s[0]] + s[1..] == s;
    }
  }

  /** A separator-free part followed by a separator splits off as the first field. */
  lemma {:induction false} SplitAfterPart(part: string, sep: char, rest: string)
    requires sep !in part
    ensures Split(part + [sep] + rest, sep) == [part] + Split(rest, sep)
  {
    var s := part + [sep] + rest;
    if part == [] {
      assert s[0] == sep && s[1..] == rest;
    } else {
      assert s[0] == part[0];
      assert s[1..] == part[1..] + [sep] + rest;
      SplitAfterPart(part[1..], sep, rest);
      assert [part[0]] + part[1..] == part;
    }
  }

  /** Splitting the join of separator-free parts gives back the parts. */
  lemma {:induction false} SplitJoin(parts: seq<string>, sep: char)
    requires |parts| >= 1
    requires forall k :: 0 <= k < |parts| ==> sep !in parts[k]
    ensures Split(Join(parts, sep), sep) == parts
  {
    if |parts| == 1 {
      SplitSingle(parts[0], sep);
    } else {
      SplitJoin(parts[1..], sep);
      SplitAfterPart(parts[0], sep, Join(parts[1..], sep));
      assert [parts[0]] + parts[1..] == parts;
    }
  }

  /** A separator at either end of the string shows up as an empty first or last field. */
  lemma {:induction false} SplitEdges(s: string, sep: char)
    ensures sep in s ==> |Split(s, sep)| >= 2
    ensures s != [] && s[0] == sep ==> Split(s, sep)[0] == []
    ensures s != [] && s[|s| - 1] == sep ==> Split(s, sep)[|Split(s, sep)| - 1] == []
  {
    if s != [] {
      SplitEdges(s[1..], sep);
      if s[0] != sep && sep in s {
        assert sep in s[1..] by {
          var k :| 0 <= k < |s| && s[k] == sep;
          assert s[1..][k - 1] == sep;
        }
      }
      if |s| > 1 && s[|s| - 1] == sep {
        assert s[1..][|s[1..]| - 1] == sep;
      }
    }
  }

  /** Appending one more part to a non-empty join adds a separator and the part. */
  lemma {:induction false} JoinSnoc(parts: seq<string>, part: string, sep: char)
    requires parts != []
    ensures Join(parts + [part], sep) == Join(parts, sep) + [sep] + part
  {
    if |parts| == 1 {
      JoinCons(parts[0], [part], sep);
    } else {
      assert (parts + [part])[1..] == parts[1..] + [part];
      JoinSnoc(parts[1..], part, sep);
      JoinCons(parts[0], parts[1..] + [part], sep);
      JoinCons(parts[0], parts[1..], sep);
    }
  }
}
