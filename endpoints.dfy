/** Endpoint-list parsing: the comma-separated endpoint string handed over at
    connection setup becomes one endpoint per field. */
module Endpoints {

  const Separator: char := ','

  /** Splitting on every separator, as Go's strings.Split does: one field per
      separator plus one, fields in order, no field containing a separator. */
  function Split(s: string): (r: seq<string>)
    ensures |r| >= 1
    ensures forall i :: 0 <= i < |r| ==> Separator !in r[i]
  {
    if s == [] then [""]
    else
      var rest := Split(s[1..]);
      if s[0] == Separator then [""] + rest
      else [[s[0]] + rest[0]] + rest[1..]
  }

  /** Concatenation of the fields with the separator between neighbours. */
  function Join(parts: seq<string>): string
    requires |parts| >= 1
  {
    if |parts| == 1 then parts[0] else parts[0] + [Separator] + Join(parts[1..])
  }

  /** The number of occurrences of `c` in `s`. */
  function Occurrences(s: string, c: char): nat
  {
    if s == [] then 0 else (if s[0] == c then 1 else 0) + Occurrences(s[1..], c)
  }

  /** Joining the fields gives back the original string. */
  lemma {:induction false} JoinSplit(s: string)
    ensures Join(Split(s)) == s
  {
    if s != [] {
      var rest := Split(s[1..]);
      JoinSplit(s[1..]);
      if s[0] == Separator {
        assert ([""] + rest)[1..] == rest;
      } else if |rest| > 1 {
        assert ([[s[0]] + rest[0]] + rest[1..])[1..] == rest[1..];
      }
    }
  }

  /** There is one field more than there are separators. */
  lemma {:induction false} SplitLength(s: string)
    ensures |Split(s)| == Occurrences(s, Separator) + 1
  {
    if s != [] {
      SplitLength(s[1..]);
    }
  }

  /** A separator-free prefix glues onto the first field of what follows. */
  lemma {:induction false} SplitGlue(p: string, t: string)
    requires Separator !in p
    ensures Split(p + t) == [p + Split(t)[0]] + Split(t)[1..]
  {
    if p != [] {
      assert (p + t)[1..] == p[1..] + t;
      SplitGlue(p[1..], t);
      assert [p[0]] + (p[1..] + Split(t)[0]) == p + Split(t)[0];
    } else {
      assert p + t == t;
      assert p + Split(t)[0] == Split(t)[0];
      assert Split(t) == [Split(t)[0]] + Split(t)[1..];
    }
  }

  /** Splitting recovers separator-free fields that were joined. */
  lemma {:induction false} SplitJoin(parts: seq<string>)
    requires |parts| >= 1
    requires forall i :: 0 <= i < |parts| ==> Separator !in parts[i]
    ensures Split(Join(parts)) == parts
  {
    if |parts| == 1 {
      SplitGlue(parts[0], "");
      assert parts[0] + "" == parts[0];
    } else {
      var tail := [Separator] + Join(parts[1..]);
      assert Join(parts) == parts[0] + tail;
      SplitGlue(parts[0], tail);
      SplitJoin(parts[1..]);
      assert tail[0] == Separator && tail[1..] == Join(parts[1..]);
      assert Split(tail) == [""] + parts[1..];
      assert Split(tail)[0] == "" && Split(tail)[1..] == parts[1..];
      assert parts[0] + "" == parts[0];
      assert parts == [parts[0]] + parts[1..];
    }
  }

  /** GetEndpoint: split the endpoint string and copy the fields into a fresh list. */
  method GetEndpoint(endpoints: string) returns (res: seq<string>)
    ensures res == Split(endpoints)
    ensures Join(res) == endpoints
    ensures |res| == Occurrences(endpoints, Separator) + 1
    ensures forall i :: 0 <= i < |res| ==> Separator !in res[i]
    ensures endpoints == "" ==> res == [""]
  {
    var sub := Split(endpoints);
    res := [];
    for i := 0 to |sub|
      invariant res == sub[..i]
    {
      res := res + [sub[i]];
    }
    assert sub[..|sub|] == sub;
    JoinSplit(endpoints);
    SplitLength(endpoints);
  }
}
