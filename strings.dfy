// Go's strings.Join, the one string operation the handler relies on, and the
// facts about it that the handler's debug output needs.

module Strings {

  /** strings.Join: the parts separated by `sep`; no parts give the empty string,
      one part is returned as it is. */
  function Join(parts: seq<string>, sep: string): string
  {
    if |parts| == 0 then ""
    else if |parts| == 1 then parts[0]
    else parts[0] + sep + Join(parts[1..], sep)
  }

  /** Each row joined on its own: the i-th string is Join(rows[i], sep). */
  function JoinEach(rows: seq<seq<string>>, sep: string): seq<string>
  {
    seq(|rows|, i requires 0 <= i < |rows| => Join(rows[i], sep))
  }

  /** One more row adds its own join at the end. */
  lemma JoinEachExtend(rows: seq<seq<string>>, n: nat, sep: string)
    requires n < |rows|
    ensures JoinEach(rows[..n + 1], sep) == JoinEach(rows[..n], sep) + [Join(rows[n], sep)]
  {
    var longer := JoinEach(rows[..n + 1], sep);
    var shorter := JoinEach(rows[..n], sep) + [Join(rows[n], sep)];
    assert |longer| == |shorter|;
    forall i | 0 <= i < |longer| ensures longer[i] == shorter[i] {
      if i < n { assert rows[..n + 1][i] == rows[..n][i]; }
    }
  }

  /** All fields of all rows, row after row. */
  function Flatten(rows: seq<seq<string>>): seq<string>
  {
    if |rows| == 0 then [] else rows[0] + Flatten(rows[1..])
  }

  /** The first part opens the joined string and the last part closes it. */
  lemma {:induction false} JoinEnds(parts: seq<string>, sep: string)
    requires |parts| > 0
    ensures parts[0] <= Join(parts, sep)
    ensures |parts[|parts| - 1]| <= |Join(parts, sep)|
    ensures Join(parts, sep)[|Join(parts, sep)| - |parts[|parts| - 1]|..] == parts[|parts| - 1]
  {
    if |parts| > 1 {
      JoinEnds(parts[1..], sep);
      var rest := Join(parts[1..], sep);
      var last := parts[|parts| - 1];
      assert parts[1..][|parts[1..]| - 1] == last;
      var whole := parts[0] + sep + rest;
      assert whole[|whole| - |last|..] == rest[|rest| - |last|..];
    }
  }

  /** Joining two non-empty lists of parts is joining each and gluing the two
      results with one more separator. */
  lemma {:induction false} JoinConcat(a: seq<string>, b: seq<string>, sep: string)
    requires |a| > 0 && |b| > 0
    ensures Join(a + b, sep) == Join(a, sep) + sep + Join(b, sep)
  {
    if |a| == 1 {
      assert (a + b)[1..] == b;
    } else {
      assert (a + b)[1..] == a[1..] + b;
      JoinConcat(a[1..], b, sep);
    }
  }

  /** Flatten begins with its first row's fields. */
  lemma FlattenStartsWithFirstRow(rows: seq<seq<string>>)
    requires |rows| > 0
    ensures rows[0] <= Flatten(rows)
  {
  }

  /** Joining the rows' own joins with the same separator is joining all their
      fields at once, as long as no row is empty (an empty row would leave an
      empty segment, that is two separators in a row). */
  lemma {:induction false} JoinOfJoins(rows: seq<seq<string>>, sep: string)
    requires forall i :: 0 <= i < |rows| ==> |rows[i]| > 0
    ensures Join(JoinEach(rows, sep), sep) == Join(Flatten(rows), sep)
  {
    if |rows| == 1 {
      assert Flatten(rows) == rows[0] + Flatten(rows[1..]);
      assert Flatten(rows) == rows[0];
    } else if |rows| > 1 {
      var rest := rows[1..];
      JoinOfJoins(rest, sep);
      assert JoinEach(rows, sep) == [Join(rows[0], sep)] + JoinEach(rest, sep);
      assert JoinEach(rows, sep)[1..] == JoinEach(rest, sep);
      FlattenStartsWithFirstRow(rest);
      JoinConcat(rows[0], Flatten(rest), sep);
    }
  }
}
