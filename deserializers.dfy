// The query-string decoder for a list of UUIDs: the text is split on ";"
// and every piece must parse as a UUID. The UUID parser is a parameter.
module Deserializers {
  import opened Common
  import Text

  /** What `visit_str` returns: the ids, or the first piece that did not parse. */
  datatype Parsed = Ids(ids: seq<Uuid>) | Invalid(piece: string)

  /** Parsing the pieces in order, stopping at the first that fails. */
  function ParseAll(pieces: seq<string>, parse: string -> Option<Uuid>): (r: Parsed)
    ensures r.Ids? ==> |r.ids| == |pieces|
                       && forall i :: 0 <= i < |pieces| ==> parse(pieces[i]) == Some(r.ids[i])
    ensures r.Invalid? <==> exists i :: 0 <= i < |pieces| && parse(pieces[i]).None?
  {
    if pieces == [] then Ids([])
    else match parse(pieces[0])
      case None => Invalid(pieces[0])
      case Some(id) =>
        match ParseAll(pieces[1..], parse)
        case Ids(rest) =>
          assert forall i :: 1 <= i < |pieces| ==> pieces[i] == pieces[1..][i - 1];
          Ids([id] + rest)
        case Invalid(p) =>
          var k :| 0 <= k < |pieces[1..]| && parse(pieces[1..][k]).None?;
          assert parse(pieces[k + 1]).None?;
          Invalid(p)
  }

  /** The failing piece reported is the first one that fails. */
  lemma {:induction false} FirstFailureReported(pieces: seq<string>, parse: string -> Option<Uuid>)
    requires ParseAll(pieces, parse).Invalid?
    ensures exists i :: 0 <= i < |pieces| && pieces[i] == ParseAll(pieces, parse).piece
                        && parse(pieces[i]).None?
                        && forall j :: 0 <= j < i ==> parse(pieces[j]).Some?
  {
    if parse(pieces[0]).None? {
      assert pieces[0] == ParseAll(pieces, parse).piece;
    } else {
      FirstFailureReported(pieces[1..], parse);
      var i :| 0 <= i < |pieces[1..]| && pieces[1..][i] == ParseAll(pieces[1..], parse).piece
               && parse(pieces[1..][i]).None?
               && forall j :: 0 <= j < i ==> parse(pieces[1..][j]).Some?;
      assert pieces[i + 1] == ParseAll(pieces, parse).piece;
      forall j | 0 <= j < i + 1 ensures parse(pieces[j]).Some? {
        if j > 0 { assert pieces[j] == pieces[1..][j - 1]; }
      }
    }
  }

  /** `visit_str`: the loop that pushes each parsed id and returns at the first failure. */
  method VisitStr(v: string, parse: string -> Option<Uuid>) returns (r: Parsed)
    ensures r == ParseAll(Text.Split(v, ';'), parse)
  {
    var pieces := Text.Split(v, ';');
    var ids: seq<Uuid> := [];
    var i := 0;
    while i < |pieces|
      invariant 0 <= i <= |pieces|
      invariant |ids| == i
      invariant ParseAll(pieces, parse) == ParseOn(ids, pieces[i..], parse)
    {
      ParseOnStep(ids, pieces[i..], parse);
      match parse(pieces[i]) {
        case None =>
          return Invalid(pieces[i]);
        case Some(id) =>
          assert pieces[i..][1..] == pieces[i + 1..];
          ids := ids + [id];
      }
      i := i + 1;
    }
    return Ids(ids);
  }

  /** The remaining work of the loop: the ids so far followed by the parse of the rest. */
  function ParseOn(done: seq<Uuid>, rest: seq<string>, parse: string -> Option<Uuid>): Parsed
  {
    match ParseAll(rest, parse)
    case Ids(more) => Ids(done + more)
    case Invalid(p) => Invalid(p)
  }

  lemma ParseOnStep(done: seq<Uuid>, rest: seq<string>, parse: string -> Option<Uuid>)
    requires rest != []
    ensures parse(rest[0]).None? ==> ParseOn(done, rest, parse) == Invalid(rest[0])
    ensures parse(rest[0]).Some? ==> ParseOn(done, rest, parse) == ParseOn(done + [parse(rest[0]).value], rest[1..], parse)
  {
    if parse(rest[0]).Some? {
      match ParseAll(rest[1..], parse)
      case Ids(more) => assert done + [parse(rest[0]).value] + more == done + ([parse(rest[0]).value] + more);
      case Invalid(p) =>
    }
  }

  /** A successful decode has one id per ";" plus one, in the order of the text. */
  lemma IdsPerSeparator(v: string, parse: string -> Option<Uuid>)
    requires ParseAll(Text.Split(v, ';'), parse).Ids?
    ensures |ParseAll(Text.Split(v, ';'), parse).ids| == Text.Count(v, ';') + 1
  {
    Text.SplitCount(v, ';');
  }

  /** The empty text is one empty piece, so it fails whenever the empty string is no UUID. */
  lemma EmptyTextFails(parse: string -> Option<Uuid>)
    requires parse("").None?
    ensures ParseAll(Text.Split("", ';'), parse) == Invalid("")
  {
  }

  /** Ids joined with ";" decode back to themselves when the parser inverts the formatter. */
  lemma {:induction false} JoinedIdsRoundTrip(ids: seq<Uuid>, format: Uuid -> string, parse: string -> Option<Uuid>)
    requires |ids| >= 1
    requires forall id: Uuid :: parse(format(id)) == Some(id) && ';' !in format(id)
    ensures ParseAll(Text.Split(Text.Join(seq(|ids|, i requires 0 <= i < |ids| => format(ids[i])), ';'), ';'), parse)
            == Ids(ids)
  {
    var texts := seq(|ids|, i requires 0 <= i < |ids| => format(ids[i]));
    Text.SplitJoin(texts, ';');
    ParseFormatted(ids, texts, parse);
  }

  lemma {:induction false} ParseFormatted(ids: seq<Uuid>, texts: seq<string>, parse: string -> Option<Uuid>)
    requires |texts| == |ids| && forall i :: 0 <= i < |ids| ==> parse(texts[i]) == Some(ids[i])
    ensures ParseAll(texts, parse) == Ids(ids)
  {
    if ids != [] {
      ParseFormatted(ids[1..], texts[1..], parse);
      assert [ids[0]] + ids[1..] == ids;
    }
  }
}
