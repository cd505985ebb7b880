// The caller's own access log, one page at a time: the access decision,
// validation of the page number and size into a map, then one read.
module AccessLogSelf {
  import opened Common
  import Login

  type U64 = x: nat | x < 0x1_0000_0000_0000_0000

  const MaxPerPage := 100
  const PageMsg := "Номер страницы должен быть больше 0"
  const PerPageZeroMsg := "Количество элементов на странице должно быть больше 0"
  const PerPageMaxMsg := "Количество элементов на странице должно быть не больше 100"

  /** One entry of the reply: the log without its user id. */
  datatype AccessLogItem = AccessLogItem(id: Uuid, isSuccess: bool, ip: string, client: string, os: string,
                                         device: string, createdAt: Time)

  function Item(log: Login.AccessLog): AccessLogItem
  {
    AccessLogItem(log.id, log.isSuccess, log.ip, log.client, log.os, log.device, log.createdAt)
  }

  function Items(logs: seq<Login.AccessLog>): (r: seq<AccessLogItem>)
    ensures |r| == |logs| && forall i :: 0 <= i < |logs| ==> r[i] == Item(logs[i])
  {
    if logs == [] then [] else [Item(logs[0])] + Items(logs[1..])
  }

  /** The page errors, keyed by field; both fields can be wrong at once. */
  function PageErrors(page: U64, perPage: U64): (m: map<string, string>)
    ensures "page" in m <==> page == 0
    ensures "per_page" in m <==> perPage == 0 || perPage > MaxPerPage
    ensures m.Keys <= {"page", "per_page"}
    ensures "per_page" in m ==> m["per_page"] == (if perPage == 0 then PerPageZeroMsg else PerPageMaxMsg)
  {
    var m1: map<string, string> := if page == 0 then map["page" := PageMsg] else map[];
    if perPage == 0 then m1["per_page" := PerPageZeroMsg]
    else if perPage > MaxPerPage then m1["per_page" := PerPageMaxMsg]
    else m1
  }

  /** The user's records in stored order. */
  function OfUser(logs: seq<Login.AccessLog>, userId: Uuid): (r: seq<Login.AccessLog>)
    ensures |r| <= |logs|
    ensures forall x :: x in r <==> x in logs && x.userId == userId
  {
    if logs == [] then []
    else if logs[0].userId == userId then [logs[0]] + OfUser(logs[1..], userId)
    else OfUser(logs[1..], userId)
  }

  /** `get_user_records(user, limit, offset)`: the user's records after the first `offset`, at most `limit`. */
  function Window(records: seq<Login.AccessLog>, limit: nat, offset: nat): (r: seq<Login.AccessLog>)
    ensures |r| <= limit
    ensures forall i :: 0 <= i < |r| ==> offset + i < |records| && r[i] == records[offset + i]
    ensures |r| == if offset >= |records| then 0 else if offset + limit <= |records| then limit else |records| - offset
  {
    if offset >= |records| then []
    else if offset + limit <= |records| then records[offset..offset + limit]
    else records[offset..]
  }

  /** The offset as written: `page * per_page`. */
  function OffsetAsWritten(page: nat, perPage: nat): nat
  {
    page * perPage
  }

  /** As written, page numbers start at 1, so every page starts past the first `per_page` records. */
  lemma FirstRecordsUnreachable(page: nat, perPage: nat)
    requires page >= 1
    ensures OffsetAsWritten(page, perPage) >= perPage
  {
    assert page * perPage >= 1 * perPage;
  }

  /** With one record per page, page 1 as written shows the second record; the corrected offset shows the first. */
  lemma FirstPageExample(records: seq<Login.AccessLog>)
    requires |records| >= 2
    ensures Window(records, 1, OffsetAsWritten(1, 1)) == [records[1]]
    ensures Window(records, 1, Offset(1, 1)) == [records[0]]
  {
  }

  /** The offset of a page numbered from 1. */
  function Offset(page: nat, perPage: nat): (o: nat)
    requires page >= 1
    ensures o + perPage == page * perPage
  {
    (page - 1) * perPage
  }

  /** With the corrected offset, record `i` is on page `i / per_page + 1`, at position `i % per_page`. */
  lemma EveryRecordOnItsPage(records: seq<Login.AccessLog>, perPage: nat, i: nat)
    requires perPage >= 1 && i < |records|
    ensures var page := i / perPage + 1;
            var w := Window(records, perPage, Offset(page, perPage));
            i % perPage < |w| && w[i % perPage] == records[i]
  {
    var page := i / perPage + 1;
    assert Offset(page, perPage) == (i / perPage) * perPage;
    assert (i / perPage) * perPage + i % perPage == i;
  }

  /** The whole request: Panic where the caller has no id or `page * per_page` overflows 64 bits. */
  function LogSpec(access: Access, page: U64, perPage: U64, userId: Option<Uuid>, logs: seq<Login.AccessLog>)
    : (r: Outcome<seq<AccessLogItem>>)
  {
    if access.Refused? then Err(AccessError(access.reason))
    else
      var errs := PageErrors(page, perPage);
      if errs != map[] then Err(InvalidData(Map(errs)))
      else if userId.None? || page * perPage >= 0x1_0000_0000_0000_0000 then Panic
      else Ok(Items(Window(OfUser(logs, userId.value), perPage, Offset(page, perPage))))
  }

  /** The request is refused by kind of access error, or by the page map, before anything is read. */
  lemma RefusalsFirst(access: Access, page: U64, perPage: U64, userId: Option<Uuid>, logs: seq<Login.AccessLog>,
                      others: seq<Login.AccessLog>)
    requires access.Refused? || page == 0 || perPage == 0 || perPage > MaxPerPage
    ensures LogSpec(access, page, perPage, userId, logs) == LogSpec(access, page, perPage, userId, others)
    ensures LogSpec(access, page, perPage, userId, logs).Err?
    ensures access.Granted? ==> LogSpec(access, page, perPage, userId, logs) == Err(InvalidData(Map(PageErrors(page, perPage))))
  {
    if access.Granted? {
      assert PageErrors(page, perPage) != map[] by {
        if page == 0 {
          assert "page" in PageErrors(page, perPage);
        } else {
          assert "per_page" in PageErrors(page, perPage);
        }
      }
    }
  }

  /** A granted, valid request returns only the caller's own records, each copied field by field, at most `per_page`. */
  lemma OwnRecordsOnly(page: U64, perPage: U64, userId: Uuid, logs: seq<Login.AccessLog>)
    requires page >= 1 && 1 <= perPage <= MaxPerPage && page * perPage < 0x1_0000_0000_0000_0000
    ensures var r := LogSpec(Granted, page, perPage, Some(userId), logs);
            && r.Ok? && |r.value| <= perPage
            && (forall k :: 0 <= k < |r.value| ==>
                  exists log :: log in logs && log.userId == userId && r.value[k] == Item(log))
  {
    var own := OfUser(logs, userId);
    var w := Window(own, perPage, Offset(page, perPage));
    forall k | 0 <= k < |w| ensures w[k] in logs && w[k].userId == userId {
      assert w[k] in own;
    }
  }

  /** The access log store, read only here. */
  class AccessLogReader {
    var logs: seq<Login.AccessLog>

    constructor (logs0: seq<Login.AccessLog>)
      ensures logs == logs0
    {
      logs := logs0;
    }

    function GetUserRecords(userId: Uuid, limit: nat, offset: nat): seq<Login.AccessLog>
      reads this
    {
      Window(OfUser(logs, userId), limit, offset)
    }
  }

  /** `GetAccessLogSelf::execute`, with the page offset counted from 1. */
  method Execute(reader: AccessLogReader, access: Access, page: U64, perPage: U64, userId: Option<Uuid>)
    returns (r: Outcome<seq<AccessLogItem>>)
    ensures r == LogSpec(access, page, perPage, userId, reader.logs)
  {
    if access.Refused? {
      return Err(AccessError(access.reason));
    }
    var errs: map<string, string> := map[];
    if page == 0 {
      errs := errs["page" := PageMsg];
    }
    if perPage == 0 {
      errs := errs["per_page" := PerPageZeroMsg];
    } else if perPage > MaxPerPage {
      errs := errs["per_page" := PerPageMaxMsg];
    }
    assert errs == PageErrors(page, perPage);
    if errs != map[] {
      return Err(InvalidData(Map(errs)));
    }
    if userId.None? || page * perPage >= 0x1_0000_0000_0000_0000 {
      return Panic;
    }
    var records := reader.GetUserRecords(userId.value, perPage, Offset(page, perPage));
    var items: seq<AccessLogItem> := [];
    var i := 0;
    while i < |records|
      invariant 0 <= i <= |records|
      invariant items == Items(records[..i])
    {
      assert records[..i + 1] == records[..i] + [records[i]];
      ItemsSnoc(records[..i], records[i]);
      items := items + [Item(records[i])];
      i := i + 1;
    }
    assert records[..i] == records;
    return Ok(items);
  }

  lemma ItemsSnoc(logs: seq<Login.AccessLog>, log: Login.AccessLog)
    ensures Items(logs + [log]) == Items(logs) + [Item(log)]
  {
  }
}
