/**
 * Connection endpoint strings (`parse_connection` in app/hierarchyresolver.py):
 * `<port>` optionally followed by `#<integer>` segments, e.g. "out1#3#7".
 */
module Endpoints {
  import opened Wrappers
  import Decimal

  /** The node delimiter the resolver splits on. */
  const Delimiter: char := '#'

  /** Why a connection string, or a lookup it drives, fails. */
  datatype Error =
    | LookupFailed                      // a search came back with None and the source then dereferenced it
    | MalformedEndpoint(segment: string) // `int()` raised ValueError on this path segment
    | LinksMissing                      // a node's `links` is None and cannot be iterated

  /** Python's `s.split(d)`: the pieces between occurrences of `d`, always at least one. */
  function Split(s: string, d: char): (r: seq<string>)
    ensures |r| >= 1
    ensures forall i :: 0 <= i < |r| ==> d !in r[i]
  {
    if s == [] then [""]
    else
      var rest := Split(s[1..], d);
      if s[0] == d then [""] + rest
      else
        var r := [[s[0]] + rest[0]] + rest[1..];
        assert forall i :: 1 <= i < |r| ==> r[i] == rest[i];
        r
  }

  /** `d.join(parts)`: the inverse of `Split`. */
  function Join(parts: seq<string>, d: char): string
    requires |parts| >= 1
  {
    if |parts| == 1 then parts[0] else parts[0] + [d] + Join(parts[1..], d)
  }

  /** Splitting and joining again gives back the string. */
  lemma {:induction false} JoinSplit(s: string, d: char)
    ensures Join(Split(s, d), d) == s
  {
    if s != [] {
      JoinSplit(s[1..], d);
      var rest := Split(s[1..], d);
      if s[0] != d {
        var r := Split(s, d);
        if |rest| > 1 {
          assert r[1..] == rest[1..];
        }
      }
    }
  }

  /** Joining pieces that do not contain the delimiter and splitting again gives back the pieces. */
  lemma {:induction false} SplitJoin(parts: seq<string>, d: char)
    requires |parts| >= 1 && forall i :: 0 <= i < |parts| ==> d !in parts[i]
    ensures Split(Join(parts, d), d) == parts
    decreases |parts|, |parts[0]|
  {
    var p := parts[0];
    if p == [] {
      if |parts| > 1 {
        SplitJoin(parts[1..], d);
        assert Join(parts, d) == [d] + Join(parts[1..], d);
        assert Join(parts, d)[1..] == Join(parts[1..], d);
      }
    } else {
      var shorter := [p[1..]] + parts[1..];
      assert forall i :: 1 <= i < |shorter| ==> shorter[i] == parts[i];
      assert d !in shorter[0] by {
        forall k | 0 <= k < |p[1..]|
          ensures p[1..][k] != d
        {
          assert p[1..][k] == p[k + 1];
        }
      }
      SplitJoin(shorter, d);
      if |parts| == 1 {
        assert Join(parts, d)[1..] == Join(shorter, d);
      } else {
        assert Join(shorter, d) == p[1..] + [d] + Join(parts[1..], d);
        assert Join(parts, d)[1..] == Join(shorter, d);
      }
      assert Join(parts, d)[0] == p[0];
      assert [p[0]] + p[1..] == p;
      assert [p] + parts[1..] == parts;
    }
  }

  /** A trailing delimiter adds one empty piece at the end. */
  lemma {:induction false} SplitTrailingDelimiter(s: string, d: char)
    ensures Split(s + [d], d) == Split(s, d) + [""]
  {
    if s == [] {
      assert [d][1..] == [];
    } else {
      assert (s + [d])[1..] == s[1..] + [d];
      SplitTrailingDelimiter(s[1..], d);
    }
  }

  /** `[int(i) for i in segments]`: the first segment that is not an integer raises. */
  function ParseSegments(segments: seq<string>): Result<seq<int>, Error> {
    if segments == [] then Ok([])
    else match Decimal.ParseInt(segments[0])
      case None => Err(MalformedEndpoint(segments[0]))
      case Some(n) =>
        match ParseSegments(segments[1..])
        case Ok(rest) => Ok([n] + rest)
        case Err(e) => Err(e)
  }

  /** `parse_connection`: the port name before the first delimiter, then the remaining segments as integers. */
  function ParseConnection(connection: string): (r: Result<(string, seq<int>), Error>)
    ensures r.Ok? ==> Delimiter !in r.value.0
  {
    var parts := Split(connection, Delimiter);
    match ParseSegments(parts[1..])
    case Ok(path) => Ok((parts[0], path))
    case Err(e) => Err(e)
  }

  /** The connection string for a port and a type path: `name#i1#i2...`. */
  function Encode(name: string, path: seq<int>): string {
    Join([name] + seq(|path|, i requires 0 <= i < |path| => Decimal.IntToString(path[i])), Delimiter)
  }

  /** The segments parse exactly when every one of them is an integer; the first bad one is reported. */
  lemma {:induction false} ParseSegmentsSpec(segments: seq<string>)
    ensures ParseSegments(segments).Ok? <==> forall i :: 0 <= i < |segments| ==> Decimal.ParseInt(segments[i]).Some?
    ensures ParseSegments(segments).Ok? ==>
              |ParseSegments(segments).value| == |segments| &&
              forall i :: 0 <= i < |segments| ==> Decimal.ParseInt(segments[i]) == Some(ParseSegments(segments).value[i])
    ensures ParseSegments(segments).Err? ==>
              exists i :: 0 <= i < |segments| && ParseSegments(segments).error == MalformedEndpoint(segments[i]) &&
                Decimal.ParseInt(segments[i]).None? &&
                forall j :: 0 <= j < i ==> Decimal.ParseInt(segments[j]).Some?
  {
    if segments != [] {
      ParseSegmentsSpec(segments[1..]);
      assert forall i :: 1 <= i < |segments| ==> segments[i] == segments[1..][i - 1];
      if ParseSegments(segments).Err? && Decimal.ParseInt(segments[0]).Some? {
        var i :| 0 <= i < |segments[1..]| && ParseSegments(segments[1..]).error == MalformedEndpoint(segments[1..][i]) &&
                 Decimal.ParseInt(segments[1..][i]).None? &&
                 forall j :: 0 <= j < i ==> Decimal.ParseInt(segments[1..][j]).Some?;
        assert ParseSegments(segments).error == MalformedEndpoint(segments[i + 1]);
      }
    }
  }

  /** The port name is the text before the first delimiter: it contains none, and the string starts with it. */
  lemma PortNameBeforeFirstDelimiter(connection: string)
    requires ParseConnection(connection).Ok?
    ensures var name := ParseConnection(connection).value.0;
            Delimiter !in name &&
            (name == connection || (|name| < |connection| && connection[..|name| + 1] == name + [Delimiter]))
  {
    var parts := Split(connection, Delimiter);
    JoinSplit(connection, Delimiter);
    if |parts| > 1 {
      assert connection == parts[0] + [Delimiter] + Join(parts[1..], Delimiter);
      assert connection[..|parts[0]| + 1] == parts[0] + [Delimiter];
    }
  }

  /** A string without the delimiter is a bare port name with an empty path. */
  lemma NoDelimiterEmptyPath(connection: string)
    requires Delimiter !in connection
    ensures ParseConnection(connection) == Ok((connection, []))
  {
    SplitJoin([connection], Delimiter);
  }

  /** A trailing delimiter leaves an empty last segment, which is not an integer. */
  lemma TrailingDelimiterFails(connection: string)
    ensures ParseConnection(connection + [Delimiter]).Err?
  {
    var parts := Split(connection + [Delimiter], Delimiter);
    SplitTrailingDelimiter(connection, Delimiter);
    var segs := parts[1..];
    assert segs[|segs| - 1] == "";
    Decimal.ParseIntEmpty();
    ParseSegmentsSpec(segs);
  }

  /** Encoding a port name without the delimiter and a type path, then parsing, gives both back. */
  lemma ParseEncode(name: string, path: seq<int>)
    requires Delimiter !in name
    ensures ParseConnection(Encode(name, path)) == Ok((name, path))
  {
    var texts := seq(|path|, i requires 0 <= i < |path| => Decimal.IntToString(path[i]));
    var parts := [name] + texts;
    forall i | 0 <= i < |parts|
      ensures Delimiter !in parts[i]
    {
      if i > 0 {
        Decimal.IntToStringAvoids(path[i - 1], Delimiter);
      }
    }
    SplitJoin(parts, Delimiter);
    assert parts[1..] == texts;
    forall i | 0 <= i < |texts|
      ensures Decimal.ParseInt(texts[i]) == Some(path[i])
    {
      Decimal.ParseIntToString(path[i]);
    }
    ParseSegmentsSpec(texts);
    assert ParseSegments(texts).value == path;
  }
}
