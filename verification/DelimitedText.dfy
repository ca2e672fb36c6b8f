/** Texts made of literals and fields in turn, such as a regular expression with one group per field describes. */
module DelimitedText {
  import opened Common

  /** A literal and the characters allowed in the field after it. */
  datatype Segment = Segment(literal: string, allowed: char -> bool)

  const CLOSE := "]"

  /** The literals and fields in turn, then the closing bracket. */
  function Join(segments: seq<Segment>, fields: seq<string>): string
    requires |segments| == |fields|
  {
    if segments == [] then CLOSE
    else segments[0].literal + (fields[0] + Join(segments[1..], fields[1..]))
  }

  predicate AllIn(s: string, allowed: char -> bool) {
    forall i :: 0 <= i < |s| ==> allowed(s[i])
  }

  /** One nonempty field of allowed characters per segment. */
  predicate Fits(segments: seq<Segment>, fields: seq<string>) {
    |fields| == |segments| &&
    (segments == [] ||
     (fields[0] != "" && AllIn(fields[0], segments[0].allowed) && Fits(segments[1..], fields[1..])))
  }

  /** What follows a field starts with a character the field may not contain. */
  predicate Delimited(segments: seq<Segment>) {
    segments == [] ||
    (var tail := segments[1..];
     (tail != [] ==> tail[0].literal != "") &&
     !segments[0].allowed(if tail == [] then CLOSE[0] else tail[0].literal[0]) &&
     Delimited(tail))
  }

  /** Length of the longest prefix of allowed characters. */
  function Run(s: string, allowed: char -> bool): (n: nat)
    ensures n <= |s| && AllIn(s[..n], allowed)
    ensures n < |s| ==> !allowed(s[n])
  {
    if s == "" || !allowed(s[0]) then 0 else 1 + Run(s[1..], allowed)
  }

  /** Reading left to right, each field as long as it can be. */
  function Split(s: string, segments: seq<Segment>): Option<seq<string>> {
    if segments == [] then if s == CLOSE then Some([]) else None
    else if !(segments[0].literal <= s) then None
    else
      var rest := s[|segments[0].literal|..];
      var n := Run(rest, segments[0].allowed);
      if n == 0 then None
      else
        var fields := Split(rest[n..], segments[1..]);
        if fields.None? then None else Some([rest[..n]] + fields.value)
  }

  lemma {:induction false} FitsFrom(segments: seq<Segment>, fields: seq<string>, i: nat)
    requires i <= |segments| == |fields|
    requires forall j :: i <= j < |fields| ==> fields[j] != "" && AllIn(fields[j], segments[j].allowed)
    ensures Fits(segments[i..], fields[i..])
    decreases |segments| - i
  {
    if i < |segments| {
      FitsFrom(segments, fields, i + 1);
      assert segments[i..][1..] == segments[i + 1..] && fields[i..][1..] == fields[i + 1..];
    }
  }

  lemma {:induction false} FitsAt(segments: seq<Segment>, fields: seq<string>, i: nat, j: nat)
    requires i <= j < |segments| == |fields| && Fits(segments[i..], fields[i..])
    ensures fields[j] != "" && AllIn(fields[j], segments[j].allowed)
    decreases |segments| - i
  {
    if i < j {
      assert segments[i..][1..] == segments[i + 1..] && fields[i..][1..] == fields[i + 1..];
      FitsAt(segments, fields, i + 1, j);
    }
  }

  lemma {:induction false} RunStops(field: string, rest: string, allowed: char -> bool)
    requires AllIn(field, allowed) && rest != "" && !allowed(rest[0])
    ensures Run(field + rest, allowed) == |field|
  {
    if field == "" {
      assert field + rest == rest;
    } else {
      assert field[0] == (field + rest)[0];
      assert (field + rest)[1..] == field[1..] + rest;
      RunStops(field[1..], rest, allowed);
    }
  }

  lemma AfterField(segments: seq<Segment>, fields: seq<string>)
    requires segments != [] && |fields| == |segments| && Delimited(segments)
    ensures var rest := Join(segments[1..], fields[1..]); rest != "" && !segments[0].allowed(rest[0])
  {
    if |segments| > 1 {
      assert Join(segments[1..], fields[1..])[0] == segments[1].literal[0];
    }
  }

  lemma Cut(a: string, b: string)
    ensures (a + b)[..|a|] == a && (a + b)[|a|..] == b && a <= a + b
  {
  }

  /** Reading what was written gives the fields back. */
  lemma {:induction false} SplitJoin(segments: seq<Segment>, fields: seq<string>)
    requires Delimited(segments) && Fits(segments, fields)
    ensures Split(Join(segments, fields), segments) == Some(fields)
  {
    hide Run;
    if segments != [] {
      var tail := Join(segments[1..], fields[1..]);
      AfterField(segments, fields);
      SplitJoin(segments[1..], fields[1..]);
      Cut(segments[0].literal, fields[0] + tail);
      Cut(fields[0], tail);
      RunStops(fields[0], tail, segments[0].allowed);
      assert fields == [fields[0]] + fields[1..];
    }
  }

  lemma SplitStep(s: string, segments: seq<Segment>)
    requires segments != [] && Split(s, segments).Some?
    ensures segments[0].literal <= s
    ensures var rest := s[|segments[0].literal|..]; var n := Run(rest, segments[0].allowed);
            n > 0 && Split(rest[n..], segments[1..]).Some? &&
            Split(s, segments).value == [rest[..n]] + Split(rest[n..], segments[1..]).value
  {
    hide Run;
  }

  lemma JoinStep(literal: string, rest: string, n: nat, s: string, segments: seq<Segment>, fields: seq<string>)
    requires n <= |rest| && s == literal + rest && segments != [] && segments[0].literal == literal
    requires |fields| == |segments| && fields[0] == rest[..n] && rest[n..] == Join(segments[1..], fields[1..])
    ensures s == Join(segments, fields)
  {
    assert rest == rest[..n] + rest[n..];
  }

  /** What is read was written that way. */
  lemma {:induction false} JoinSplit(s: string, segments: seq<Segment>)
    requires Split(s, segments).Some?
    ensures var fields := Split(s, segments).value;
            Fits(segments, fields) && s == Join(segments, fields)
  {
    if segments != [] {
      hide Split, Join, AllIn;
      SplitStep(s, segments);
      var literal := segments[0].literal;
      var rest := s[|literal|..];
      var n := Run(rest, segments[0].allowed);
      JoinSplit(rest[n..], segments[1..]);
      var fields, tail := Split(s, segments).value, Split(rest[n..], segments[1..]).value;
      assert fields[1..] == tail;
      assert s == literal + rest;
      JoinStep(literal, rest, n, s, segments, fields);
    }
  }
}
