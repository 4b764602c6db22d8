/**
  Python's `','.join(parts)`, `s.split(',')` and `''.join(parts)` on strings,
  as the AMI script uses them to turn each page of JMESPath projections into
  a list of identifiers.
 */
module PyStr {

  /** Every part is a non-empty string with no comma in it: what an EC2
      image id or instance id looks like. */
  predicate WellFormedIds(ids: seq<string>)
  {
    forall i :: 0 <= i < |ids| ==> ids[i] != "" && ',' !in ids[i]
  }

  /** `','.join(parts)`: the parts with a comma between each two. */
  function Join(parts: seq<string>): (s: string)
    ensures |parts| == 0 ==> s == ""
  {
    if |parts| == 0 then ""
    else if |parts| == 1 then parts[0]
    else parts[0] + "," + Join(parts[1..])
  }

  /** `s.split(',')`: the maximal comma-free pieces of `s`; there is always
      at least one piece, and `"".split(',')` is `[""]`. */
  function Split(s: string): (pieces: seq<string>)
    ensures |pieces| >= 1
    ensures forall i :: 0 <= i < |pieces| ==> ',' !in pieces[i]
  {
    if |s| == 0 then [""]
    else
      var rest := Split(s[1..]);
      if s[0] == ',' then [""] + rest
      else [[s[0]] + rest[0]] + rest[1..]
  }

  /** `''.join(parts)`: the parts one after the other. */
  function Concat(parts: seq<string>): string
  {
    if |parts| == 0 then "" else parts[0] + Concat(parts[1..])
  }

  /** Splitting a joined string gives the pieces back: `Split` undoes `Join`. */
  lemma {:induction false} JoinSplit(s: string)
    ensures Join(Split(s)) == s
  {
    if |s| > 0 {
      var rest := Split(s[1..]);
      JoinSplit(s[1..]);
      if s[0] == ',' {
        assert Split(s) == [""] + rest;
        assert ([""] + rest)[1..] == rest;
        assert s == "," + s[1..];
      } else if |rest| == 1 {
        assert s == [s[0]] + s[1..];
      } else {
        assert Split(s) == [[s[0]] + rest[0]] + rest[1..];
        assert ([[s[0]] + rest[0]] + rest[1..])[1..] == rest[1..];
        assert s == [s[0]] + s[1..];
      }
    }
  }

  /** A comma-free string is a single piece. */
  lemma {:induction false} SplitNoComma(s: string)
    requires ',' !in s
    ensures Split(s) == [s]
  {
    if |s| > 0 {
      SplitNoComma(s[1..]);
      assert s == [s[0]] + s[1..];
    }
  }

  /** A comma-free prefix followed by a comma becomes the first piece. */
  lemma {:induction false} SplitAfterComma(p: string, rest: string)
    requires ',' !in p
    ensures Split(p + "," + rest) == [p] + Split(rest)
  {
    var s := p + "," + rest;
    if |p| == 0 {
      assert s == "," + rest;
      assert s[1..] == rest;
    } else {
      assert s[0] == p[0];
      assert s[1..] == p[1..] + "," + rest;
      SplitAfterComma(p[1..], rest);
      assert [p[0]] + p[1..] == p;
    }
  }

  /** For well-formed ids, `','.join(ids).split(',')` is `ids` itself. */
  lemma {:induction false} SplitJoin(ids: seq<string>)
    requires |ids| >= 1
    requires forall i :: 0 <= i < |ids| ==> ',' !in ids[i]
    ensures Split(Join(ids)) == ids
  {
    if |ids| == 1 {
      SplitNoComma(ids[0]);
    } else {
      SplitJoin(ids[1..]);
      SplitAfterComma(ids[0], Join(ids[1..]));
      assert [ids[0]] + ids[1..] == ids;
    }
  }

  /** For well-formed ids, the joined string has a comma exactly when there
      are at least two ids, and is empty exactly when there are none. */
  lemma {:induction false} JoinShape(ids: seq<string>)
    requires WellFormedIds(ids)
    ensures ',' in Join(ids) <==> |ids| >= 2
    ensures Join(ids) == "" <==> |ids| == 0
  {
    if |ids| >= 2 {
      var s := Join(ids);
      assert s == ids[0] + "," + Join(ids[1..]);
      assert s[|ids[0]|] == ',';
    } else if |ids| == 1 {
      assert Join(ids) == ids[0];
    }
  }

  /** `''.join(parts)` is empty exactly when every part is empty, in
      particular when there are no parts at all. */
  lemma {:induction false} ConcatEmpty(parts: seq<string>)
    ensures Concat(parts) == "" <==> forall i :: 0 <= i < |parts| ==> parts[i] == ""
  {
    if |parts| > 0 {
      ConcatEmpty(parts[1..]);
      assert forall i :: 1 <= i < |parts| ==> parts[i] == parts[1..][i - 1];
    }
  }
}
