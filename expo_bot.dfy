/** The Slack side of the Expo bot: status labels and colours, the booking
    link, slash-command argument rules, the "watched and changed" filter that
    turns a batch of detected changes into notifications, and the truncated
    listings the commands reply with. */
module ExpoBot {
  import opened Wrappers
  import opened Text
  import opened Ordering
  import opened ExpoStore
  import opened ExpoWatch

  // ---------------------------------------------------------------------------
  // Status labels and colours

  /** The label of a status code: 2, 1 and 0 have fixed labels, any other
      code is shown as unknown together with its number. */
  function StatusText(status: int): (text: string)
    ensures |text| > 0
    ensures !(0 <= status <= 2) ==> text == "Unknown Status (" + IntToString(status) + ") \U{2753}"
  {
    if status == 2 then "Unavailable \U{26D4}\U{FE0F}"
    else if status == 1 then "Limited \U{26A0}\U{FE0F}"
    else if status == 0 then "Available \U{2705}"
    else "Unknown Status (" + IntToString(status) + ") \U{2753}"
  }

  const UnknownStatusColor := "#B0BEC5"

  /** The attachment colour of a status code; grey exactly for codes other
      than 0, 1 and 2. */
  function StatusColor(status: int): (color: string)
    ensures color == UnknownStatusColor <==> !(0 <= status <= 2)
  {
    if status == 2 then "#E0BBE4"
    else if status == 1 then "#FFD34F"
    else if status == 0 then "#A5D6A7"
    else UnknownStatusColor
  }

  /** Different status codes never get the same label, so a notification's
      label tells the new status exactly. */
  lemma StatusTextInjective(a: int, b: int)
    requires StatusText(a) == StatusText(b)
    ensures a == b
  {
    var t := StatusText(a);
    if !(0 <= a <= 2) && !(0 <= b <= 2) {
      var prefix := "Unknown Status (";
      var ta := prefix + IntToString(a) + ") \U{2753}";
      var tb := prefix + IntToString(b) + ") \U{2753}";
      assert |IntToString(a)| == |IntToString(b)|;
      assert IntToString(a) == ta[|prefix|..|ta| - 3];
      assert IntToString(b) == tb[|prefix|..|tb| - 3];
      IntToStringInjective(a, b);
    }
  }

  /** The three known codes have three different colours. */
  lemma KnownStatusColorsDistinct(a: int, b: int)
    requires 0 <= a <= 2 && 0 <= b <= 2
    requires StatusColor(a) == StatusColor(b)
    ensures a == b
  {
    assert StatusColor(a)[1] == StatusColor(b)[1];
  }

  // ---------------------------------------------------------------------------
  // Booking link

  const TicketBaseUrl := "https://ticket.expo2025.or.jp/event_time/"

  /** The query parameters of a booking link, in their fixed order; `today`
      stands for the current date as `YYYYMMDD`. */
  function TicketParams(pavilionId: string, idsList: seq<string>, today: string): (params: seq<(string, string)>)
    ensures |params| == 5
  {
    [ ("id", if idsList != [] then Join(idsList, ",") else ""),
      ("event_id", pavilionId),
      ("screen_id", "108"),
      ("lottery", "5"),
      ("entrance_date", today) ]
  }

  /** `k=v` for every parameter whose value is not empty, in order. */
  function QueryFields(params: seq<(string, string)>): (fields: seq<string>)
    ensures |fields| <= |params|
  {
    if params == [] then []
    else
      var rest := QueryFields(params[1..]);
      if params[0].1 != "" then [params[0].0 + "=" + params[0].1] + rest else rest
  }

  /** `get_expo_ticket_link`. */
  function TicketLink(pavilionId: string, idsList: seq<string>, today: string): (link: string)
    ensures |TicketBaseUrl| < |link| && link[..|TicketBaseUrl| + 1] == TicketBaseUrl + "?"
  {
    TicketBaseUrl + "?" + Join(QueryFields(TicketParams(pavilionId, idsList, today)), "&")
  }

  /** With ticket IDs, the link carries all five parameters, the IDs joined
      by commas. */
  lemma TicketLinkWithIds(pavilionId: string, idsList: seq<string>, today: string)
    requires Join(idsList, ",") != "" && pavilionId != "" && today != ""
    ensures TicketLink(pavilionId, idsList, today) == TicketBaseUrl + "?" + Join(
      ["id=" + Join(idsList, ","), "event_id=" + pavilionId, "screen_id=108", "lottery=5", "entrance_date=" + today], "&")
  {
    var params := TicketParams(pavilionId, idsList, today);
    assert idsList != [];
    var tail := TicketQueryTail(pavilionId, idsList, today);
    assert "id" + "=" == "id=" && "event_id" + "=" == "event_id=";
    assert params[1..][1..] == params[2..];
    assert QueryFields(params[1..]) == ["event_id=" + pavilionId] + tail;
    var fields := QueryFields(params);
    assert fields == ["id=" + Join(idsList, ","), "event_id=" + pavilionId] + tail;
    assert fields == ["id=" + Join(idsList, ","), "event_id=" + pavilionId, "screen_id=108", "lottery=5", "entrance_date=" + today];
  }

  /** The fixed end of every query: `screen_id`, `lottery` and, for a
      non-empty date, `entrance_date`. */
  lemma TicketQueryTail(pavilionId: string, idsList: seq<string>, today: string)
    returns (tail: seq<string>)
    requires today != ""
    ensures tail == ["screen_id=108", "lottery=5", "entrance_date=" + today]
    ensures QueryFields(TicketParams(pavilionId, idsList, today)[2..]) == tail
  {
    var p := TicketParams(pavilionId, idsList, today);
    tail := ["screen_id=108", "lottery=5", "entrance_date=" + today];
    assert "entrance_date" + "=" == "entrance_date=";
    assert "lottery" + "=" + "5" == "lottery=5";
    assert "screen_id" + "=" + "108" == "screen_id=108";
    assert p[4..][1..] == [];
    assert QueryFields(p[4..]) == ["entrance_date=" + today];
    assert p[3..][1..] == p[4..];
    assert QueryFields(p[3..]) == ["lottery=5", "entrance_date=" + today];
    assert p[2..][1..] == p[3..];
  }

  /** Without ticket IDs, the `id` parameter is left out entirely. */
  lemma TicketLinkWithoutIds(pavilionId: string, today: string)
    requires pavilionId != "" && today != ""
    ensures TicketLink(pavilionId, [], today) == TicketBaseUrl + "?" + Join(
      ["event_id=" + pavilionId, "screen_id=108", "lottery=5", "entrance_date=" + today], "&")
  {
    var params := TicketParams(pavilionId, [], today);
    var tail := TicketQueryTail(pavilionId, [], today);
    var fields := QueryFields(params);
    assert "event_id" + "=" == "event_id=";
    assert params[1..][1..] == params[2..];
    assert QueryFields(params[1..]) == ["event_id=" + pavilionId] + tail;
    assert fields == ["event_id=" + pavilionId] + tail;
  }

  /** Splitting the query on `&` gives back exactly the non-empty parameters,
      in order, as long as no value holds an `&`. */
  lemma TicketQueryRoundTrip(pavilionId: string, idsList: seq<string>, today: string)
    requires '&' !in pavilionId && '&' !in today
    requires forall i :: 0 <= i < |idsList| ==> '&' !in idsList[i]
    ensures var link := TicketLink(pavilionId, idsList, today);
      var query := link[|TicketBaseUrl| + 1..];
      && link[..|TicketBaseUrl| + 1] == TicketBaseUrl + "?"
      && Split(query, '&') == QueryFields(TicketParams(pavilionId, idsList, today))
  {
    var params := TicketParams(pavilionId, idsList, today);
    JoinKeepsAbsent(idsList, ",", '&');
    QueryFieldsKeepAbsent(params, '&');
    assert |QueryFields(params[2..])| >= 1;
    assert |QueryFields(params[1..])| >= 1;
    SplitJoin(QueryFields(params), '&');
  }

  /** A character in no part and not in the separator is not in the join. */
  lemma {:induction false} JoinKeepsAbsent(parts: seq<string>, sep: string, c: char)
    requires c !in sep
    requires forall i :: 0 <= i < |parts| ==> c !in parts[i]
    ensures c !in Join(parts, sep)
  {
    if |parts| > 1 {
      JoinKeepsAbsent(parts[1..], sep, c);
    }
  }

  lemma {:induction false} QueryFieldsKeepAbsent(params: seq<(string, string)>, c: char)
    requires forall i :: 0 <= i < |params| ==> c !in params[i].0 && c !in params[i].1 && c != '='
    ensures forall i :: 0 <= i < |QueryFields(params)| ==> c !in QueryFields(params)[i]
  {
    if params != [] {
      var rest := params[1..];
      forall i | 0 <= i < |rest| ensures c !in rest[i].0 && c !in rest[i].1 && c != '=' {
        assert rest[i] == params[i + 1];
      }
      QueryFieldsKeepAbsent(rest, c);
    }
  }

  // ---------------------------------------------------------------------------
  // /set_ticket_ids argument

  /** What `/set_ticket_ids` does with its text: clear the IDs (the call
      stores `[]`), reject the text and store nothing, or store `ids`. The
      store itself is not part of this model. */
  datatype TicketIdsCommand = ClearIds | NoValidIds | SetIds(ids: seq<string>)

  /** `[p.strip() for p in parts if p.strip()]`. */
  function CleanIds(parts: seq<string>): (ids: seq<string>)
    ensures |ids| <= |parts|
  {
    if parts == [] then []
    else
      var id := Strip(parts[0]);
      if id == "" then CleanIds(parts[1..]) else [id] + CleanIds(parts[1..])
  }

  /** Every kept ID is non-empty with no whitespace at either end. */
  lemma {:induction false} CleanIdsStripped(parts: seq<string>)
    ensures forall i :: 0 <= i < |CleanIds(parts)| ==> IsStripped(CleanIds(parts)[i])
  {
    if parts != [] {
      var rest := CleanIds(parts[1..]);
      CleanIdsStripped(parts[1..]);
      var id := Strip(parts[0]);
      if id != "" {
        StripNonBlankIsStripped(parts[0]);
        var ids := CleanIds(parts);
        assert ids == [id] + rest;
        forall i | 0 <= i < |ids| ensures IsStripped(ids[i]) {
          if i > 0 {
            assert ids[i] == rest[i - 1];
          }
        }
      } else {
        assert CleanIds(parts) == rest;
      }
    }
  }

  /** The IDs kept from `parts` are exactly their non-blank strips. */
  lemma {:induction false} CleanIdsMembers(parts: seq<string>)
    ensures forall id :: id in CleanIds(parts) <==> id != "" && exists p :: p in parts && Strip(p) == id
  {
    if parts != [] {
      var rest := parts[1..];
      CleanIdsMembers(rest);
      var id0 := Strip(parts[0]);
      assert CleanIds(parts) == (if id0 == "" then [] else [id0]) + CleanIds(rest);
      forall id ensures id in CleanIds(parts) <==> id != "" && exists p :: p in parts && Strip(p) == id {
        if id in CleanIds(rest) {
          var p :| p in rest && Strip(p) == id;
          assert p in parts;
        }
        if id != "" && id != id0 && (exists p :: p in parts && Strip(p) == id) {
          var p :| p in parts && Strip(p) == id;
          assert p in rest;
        }
      }
    }
  }

  /** No ID is kept iff every part is blank. */
  lemma CleanIdsNone(parts: seq<string>)
    ensures CleanIds(parts) == [] <==> forall p :: p in parts ==> Strip(p) == ""
  {
    CleanIdsMembers(parts);
    if CleanIds(parts) != [] {
      var id := CleanIds(parts)[0];
      assert id in CleanIds(parts);
    }
    if exists p :: p in parts && Strip(p) != "" {
      var p :| p in parts && Strip(p) != "";
      assert Strip(p) in CleanIds(parts);
    }
  }

  /** How the `/set_ticket_ids` handler reads its text: blank text clears the
      IDs; otherwise the text is split on commas, and it is rejected when
      every part is blank, or else the non-blank stripped parts are stored. */
  function ParseTicketIds(text: string): (cmd: TicketIdsCommand)
    ensures cmd.ClearIds? <==> forall k :: 0 <= k < |text| ==> IsSpace(text[k])
    ensures cmd.NoValidIds? <==>
      Strip(text) != "" && forall p :: p in Split(Strip(text), ',') ==> Strip(p) == ""
    ensures cmd.SetIds? ==> cmd.ids != [] && forall i :: 0 <= i < |cmd.ids| ==> IsStripped(cmd.ids[i])
    ensures cmd.SetIds? ==> forall id :: id in cmd.ids <==>
      id != "" && exists p :: p in Split(Strip(text), ',') && Strip(p) == id
  {
    StripProperties(text);
    var idsString := Strip(text);
    if idsString == "" then ClearIds
    else
      var ids := CleanIds(Split(idsString, ','));
      CleanIdsStripped(Split(idsString, ','));
      CleanIdsMembers(Split(idsString, ','));
      CleanIdsNone(Split(idsString, ','));
      if ids == [] then NoValidIds else SetIds(ids)
  }

  lemma StripNonBlankIsStripped(s: string)
    requires Strip(s) != ""
    ensures IsStripped(Strip(s))
  {
    StripProperties(s);
  }

  /** Stripping never brings in a character. */
  lemma StripKeepsAbsent(s: string, c: char)
    requires c !in s
    ensures c !in Strip(s)
  {
    var l := StripLeft(s);
    forall k | 0 <= k < |l| ensures l[k] != c {
      assert l[k] == s[|s| - |l| + k];
    }
    var r := StripRight(l);
    forall k | 0 <= k < |r| ensures r[k] != c {
      assert r[k] == l[k];
    }
  }

  /** A comma-free, whitespace-free part contributes itself; a blank one
      nothing. */
  lemma {:induction false} CleanIdsOfStripped(ids: seq<string>)
    requires forall i :: 0 <= i < |ids| ==> IsStripped(ids[i])
    ensures CleanIds(ids) == ids
  {
    if ids != [] {
      StrippedIsFixed(ids[0]);
      CleanIdsOfStripped(ids[1..]);
    }
  }

  /** IDs typed as `ID1,ID2,...` are stored exactly as typed. */
  lemma TicketIdsRoundTrip(ids: seq<string>)
    requires ids != []
    requires forall i :: 0 <= i < |ids| ==> IsStripped(ids[i]) && ',' !in ids[i]
    ensures ParseTicketIds(Join(ids, ",")) == SetIds(ids)
  {
    var s := Join(ids, ",");
    JoinStripped(ids, ",");
    StrippedIsFixed(s);
    SplitJoin(ids, ',');
    CleanIdsOfStripped(ids);
  }

  /** Joining stripped parts with a non-blank separator gives a stripped
      string. */
  lemma {:induction false} JoinStripped(parts: seq<string>, sep: string)
    requires parts != []
    requires forall i :: 0 <= i < |parts| ==> IsStripped(parts[i])
    ensures IsStripped(Join(parts, sep))
  {
    if |parts| > 1 {
      JoinStripped(parts[1..], sep);
    }
  }

  /** A text that is not blank but holds nothing between its commas is
      rejected. */
  lemma OnlyCommasRejected()
    ensures ParseTicketIds(" , ,") == NoValidIds
  {
    var s := Strip(" , ,");
    assert StripLeft(" , ,") == ", ,";
    assert s == ", ,";
    assert ","[1..] == "" && " ,"[1..] == "," && ", ,"[1..] == " ,";
    assert Split(",", ',') == ["", ""];
    assert [' '] + "" == " " && ["", ""][1..] == [""];
    assert Split(" ,", ',') == [" ", ""];
    assert Split(s, ',') == ["", " ", ""];
    assert Strip(" ") == "";
  }

  // ---------------------------------------------------------------------------
  // Command arguments and the watch rule

  /** `text.strip().split()[0].upper()`, or `None` for a blank text: the
      upper-cased run of non-blank characters that starts the text once its
      leading whitespace is dropped. */
  function CommandCode(text: string): (code: Option<string>)
    ensures code.None? <==> forall k :: 0 <= k < |text| ==> IsSpace(text[k])
    ensures code.Some? ==> code.value != [] && Upper(code.value) == code.value
    ensures code.Some? ==>
      var t := StripLeft(text);
      && |code.value| <= |t|
      && code.value == Upper(t[..|code.value|])
      && (forall k :: 0 <= k < |code.value| ==> !IsSpace(t[k]))
      && (|code.value| == |t| || IsSpace(t[|code.value|]))
  {
    match FirstToken(text)
    case None => None
    case Some(word) =>
      var t := StripLeft(text);
      assert word == t[..|word|];
      assert forall k :: 0 <= k < |word| ==> !IsSpace(t[k]) by {
        forall k | 0 <= k < |word| ensures !IsSpace(t[k]) {
          assert t[k] == word[k];
        }
      }
      UpperIdempotent(word);
      Some(Upper(word))
  }

  /** A code names a known pavilion when the looked-up name is neither empty
      nor the code itself (the lookup's fallback). */
  predicate IsKnownPavilion(code: string, name: string) {
    name != "" && name != code
  }

  /** On the store, the rule accepts exactly the stored codes whose name is
      not empty and differs from the code: unknown codes are refused, and so
      is a stored pavilion named after its own code. */
  lemma KnownPavilionRule(dm: DataManager, code: string)
    ensures IsKnownPavilion(code, dm.GetPavilionName(code)) <==>
      code in dm.currentPavilionData && dm.currentPavilionData[code].name != "" && dm.currentPavilionData[code].name != code
  {
  }

  // ---------------------------------------------------------------------------
  // Time slots

  /** `slot[:2] + ":" + slot[2:]`. */
  function FormatSlot(slot: string): (shown: string)
    ensures |shown| == |slot| + 1
  {
    var k := if |slot| < 2 then |slot| else 2;
    slot[..k] + ":" + slot[k..]
  }

  /** Different slots are shown differently. */
  lemma FormatSlotInjective(a: string, b: string)
    requires FormatSlot(a) == FormatSlot(b)
    ensures a == b
  {
    var k := if |a| < 2 then |a| else 2;
    var f := FormatSlot(a);
    assert a == f[..k] + f[k + 1..];
    assert b == f[..k] + f[k + 1..];
  }

  /** An `HHMM` slot is shown as `HH:MM`. */
  lemma FormatFourDigitSlot(slot: string)
    requires |slot| == 4
    ensures FormatSlot(slot) == [slot[0], slot[1], ':', slot[2], slot[3]]
  {
  }

  // ---------------------------------------------------------------------------
  // Truncated listings

  /** The message pieces of a listing capped at `limit` items: the first
      items rendered one by one and, when some were left out, one more piece
      telling how many. */
  function Truncated<T>(items: seq<T>, limit: nat, render: T -> string, more: nat -> string): (pieces: seq<string>)
  {
    var shown := if |items| <= limit then |items| else limit;
    seq(shown, i requires 0 <= i < shown => render(items[i]))
      + (if |items| > limit then [more(|items| - limit)] else [])
  }

  /** The loop the handlers share: render item after item and, at index
      `limit`, add the note about the `|items| - limit` items left and stop. */
  method TruncatedPieces<T>(items: seq<T>, limit: nat, render: T -> string, more: nat -> string)
    returns (pieces: seq<string>)
    ensures pieces == Truncated(items, limit, render, more)
  {
    pieces := [];
    for i := 0 to |items|
      invariant i <= limit
      invariant |pieces| == i
      invariant forall k :: 0 <= k < i ==> pieces[k] == render(items[k])
    {
      if i >= limit {
        pieces := pieces + [more(|items| - i)];
        break;
      }
      pieces := pieces + [render(items[i])];
    }
  }

  /** A listing has at most `limit` item pieces and one note, and the note
      accounts for every item not shown. */
  lemma TruncatedShape<T>(items: seq<T>, limit: nat, render: T -> string, more: nat -> string)
    ensures var pieces := Truncated(items, limit, render, more);
      && (|items| <= limit ==> |pieces| == |items|)
      && (|items| > limit ==> |pieces| == limit + 1 && pieces[limit] == more(|items| - limit))
      && forall i :: 0 <= i < |pieces| && i < limit && i < |items| ==> pieces[i] == render(items[i])
  {
  }

  /** The pieces of a message, one after the other. */
  function Concat(pieces: seq<string>): string
  {
    if pieces == [] then "" else pieces[0] + Concat(pieces[1..])
  }

  /** `"• `code`: name"`, one line of a pavilion listing. */
  function PavilionLine(entry: (string, string)): string {
    "\U{2022} `" + entry.0 + "`: " + entry.1
  }

  function PavilionBullet(entry: (string, string)): string {
    PavilionLine(entry) + "\n"
  }

  /** Splitting the bullets of a listing on line breaks gives back one line
      per entry, in order, when no code or name holds a line break. */
  lemma {:induction false} BulletLines(entries: seq<(string, string)>)
    requires forall i :: 0 <= i < |entries| ==> '\n' !in entries[i].0 && '\n' !in entries[i].1
    ensures Split(Concat(seq(|entries|, i requires 0 <= i < |entries| => PavilionBullet(entries[i]))), '\n')
      == seq(|entries|, i requires 0 <= i < |entries| => PavilionLine(entries[i])) + [""]
  {
    var bullets := seq(|entries|, i requires 0 <= i < |entries| => PavilionBullet(entries[i]));
    var lines := seq(|entries|, i requires 0 <= i < |entries| => PavilionLine(entries[i]));
    if entries != [] {
      var rest := entries[1..];
      BulletLines(rest);
      assert bullets[1..] == seq(|rest|, i requires 0 <= i < |rest| => PavilionBullet(rest[i]));
      assert lines[1..] == seq(|rest|, i requires 0 <= i < |rest| => PavilionLine(rest[i]));
      var line := PavilionLine(entries[0]);
      assert '\n' !in line;
      SplitAfterPart(line, '\n', Concat(bullets[1..]));
      assert Concat(bullets) == line + ['\n'] + Concat(bullets[1..]);
      assert lines == [line] + lines[1..];
    }
  }

  lemma {:induction false} ConcatAppend(pieces: seq<string>, piece: string)
    ensures Concat(pieces + [piece]) == Concat(pieces) + piece
  {
    if pieces != [] {
      assert (pieces + [piece])[1..] == pieces[1..] + [piece];
      ConcatAppend(pieces[1..], piece);
    }
  }

  const MaxPavilionsDisplay := 50
  const MaxSlotsDisplay := 15
  const MaxSearchResultsDisplay := 20

  function PavilionsMoreNote(n: nat): string {
    "\n_... and " + IntToString(n) + " more. Use `/search_expo` to find specific ones!_"
  }

  function SearchMoreNote(n: nat): string {
    "\n_... and " + IntToString(n) + " more results. Please refine your search._ \U{1F4A1}"
  }

  function SlotsMoreNote(n: nat): string {
    "_" + IntToString(n) + " more time slots..._"
  }

  /** `"*Time HH:MM:* label"`, one field of the status card. */
  function SlotField(item: (string, int)): string {
    "*Time " + FormatSlot(item.0) + ":* " + StatusText(item.1)
  }

  function NameOf(entry: (string, string)): string { entry.1 }

  function SlotOf(item: (string, int)): string { item.0 }

  // ---------------------------------------------------------------------------
  // /list_all_expo

  datatype ListReply = ListUnavailable | PavilionList(entries: seq<(string, string)>, text: string)

  /** Every stored pavilion sorted by name, capped at 50 lines; an empty store
      gets the apology. */
  method ListAllExpo(dm: DataManager) returns (reply: ListReply)
    ensures reply.ListUnavailable? <==> dm.currentPavilionData == map[]
    ensures reply.PavilionList? ==>
      && SortedBy(reply.entries, NameOf)
      && |reply.entries| == |dm.currentPavilionData|
      && CodesOf(reply.entries) == dm.currentPavilionData.Keys
      && (forall i :: 0 <= i < |reply.entries| ==>
            reply.entries[i].0 in dm.currentPavilionData && reply.entries[i].1 == dm.currentPavilionData[reply.entries[i].0].name)
      && reply.text == Concat(Truncated(reply.entries, MaxPavilionsDisplay, PavilionBullet, PavilionsMoreNote))
  {
    var infos := dm.GetAllPavilionsInfo();
    if infos == [] {
      return ListUnavailable;
    }
    var entries := SortBy(infos, NameOf);
    SortByCorrect(infos, NameOf);
    forall i | 0 <= i < |entries|
      ensures entries[i].0 in dm.currentPavilionData && entries[i].1 == dm.currentPavilionData[entries[i].0].name
    {
      assert entries[i] in multiset(infos);
    }
    SameCodes(infos, entries);
    var pieces := TruncatedPieces(entries, MaxPavilionsDisplay, PavilionBullet, PavilionsMoreNote);
    reply := PavilionList(entries, Concat(pieces));
  }

  lemma SameCodes(a: seq<(string, string)>, b: seq<(string, string)>)
    requires multiset(a) == multiset(b)
    ensures CodesOf(a) == CodesOf(b)
  {
    forall c | c in CodesOf(a) ensures c in CodesOf(b) {
      var i :| 0 <= i < |a| && a[i].0 == c;
      assert a[i] in multiset(b);
      var j :| 0 <= j < |b| && b[j] == a[i];
    }
    forall c | c in CodesOf(b) ensures c in CodesOf(a) {
      var i :| 0 <= i < |b| && b[i].0 == c;
      assert b[i] in multiset(a);
      var j :| 0 <= j < |a| && a[j] == b[i];
    }
  }

  // ---------------------------------------------------------------------------
  // /search_expo

  datatype SearchReply = SearchUsage | NoMatches(query: string) | SearchResults(query: string, count: nat, text: string)

  /** A blank query is refused; otherwise `results` stands for what the name
      search returned for the stripped query (that search is not part of
      this model), shown capped at 20 lines with its total count. */
  method SearchExpo(text: string, results: seq<(string, string)>) returns (reply: SearchReply)
    ensures reply.SearchUsage? <==> Strip(text) == ""
    ensures Strip(text) != "" && results == [] ==> reply == NoMatches(Strip(text))
    ensures Strip(text) != "" && results != [] ==>
      reply == SearchResults(Strip(text), |results|,
                             Concat(Truncated(results, MaxSearchResultsDisplay, PavilionBullet, SearchMoreNote)))
  {
    var query := Strip(text);
    if query == "" {
      return SearchUsage;
    }
    if results == [] {
      return NoMatches(query);
    }
    var pieces := TruncatedPieces(results, MaxSearchResultsDisplay, PavilionBullet, SearchMoreNote);
    reply := SearchResults(query, |results|, Concat(pieces));
  }

  // ---------------------------------------------------------------------------
  // /watch_expo, /unwatch_expo, /list_watched_expo

  datatype WatchReply = WatchUsage | WatchNotFound(code: string) | Watching(name: string, code: string)
                      | AlreadyWatching(name: string, code: string)

  /** Watch the pavilion named by the first word of `text`, upper-cased, if
      the store knows it; `outcome` says how saving the watch
      file ends. */
  method WatchExpo(dm: DataManager, registry: WatchedPavilionManager, text: string, outcome: SaveOutcome)
    returns (reply: WatchReply)
    modifies registry
    ensures CommandCode(text).None? ==> reply == WatchUsage
    ensures CommandCode(text).Some? ==>
      var code := CommandCode(text).value;
      var name := dm.GetPavilionName(code);
      if !IsKnownPavilion(code, name) then reply == WatchNotFound(code)
      else if code in old(registry.watchedCodes) then reply == AlreadyWatching(name, code)
      else reply == Watching(name, code)
    ensures reply.Watching? ==> registry.watchedCodes == old(registry.watchedCodes) + {reply.code}
    ensures reply.Watching? ==> registry.persisted == FileAfterSave(outcome, registry.watchedCodes, old(registry.persisted))
    ensures !reply.Watching? ==> registry.watchedCodes == old(registry.watchedCodes) && registry.persisted == old(registry.persisted)
  {
    var arg := CommandCode(text);
    if arg.None? {
      return WatchUsage;
    }
    var code := arg.value;
    var name := dm.GetPavilionName(code);
    if !IsKnownPavilion(code, name) {
      return WatchNotFound(code);
    }
    var added := registry.AddPavilion(code, outcome);
    if added {
      reply := Watching(name, code);
    } else {
      reply := AlreadyWatching(name, code);
    }
  }

  datatype UnwatchReply = UnwatchUsage | Unwatched(name: string, code: string) | NotWatched(code: string)

  /** Stop watching the code given as the first word of `text`; there is no
      check against the store, only against the watch set. */
  method UnwatchExpo(dm: DataManager, registry: WatchedPavilionManager, text: string, outcome: SaveOutcome)
    returns (reply: UnwatchReply)
    modifies registry
    ensures CommandCode(text).None? ==> reply == UnwatchUsage
    ensures CommandCode(text).Some? ==>
      var code := CommandCode(text).value;
      if code in old(registry.watchedCodes) then reply == Unwatched(dm.GetPavilionName(code), code)
      else reply == NotWatched(code)
    ensures registry.watchedCodes == if reply.Unwatched? then old(registry.watchedCodes) - {reply.code} else old(registry.watchedCodes)
    ensures registry.persisted ==
      if reply.Unwatched? then FileAfterSave(outcome, registry.watchedCodes, old(registry.persisted)) else old(registry.persisted)
  {
    var arg := CommandCode(text);
    if arg.None? {
      return UnwatchUsage;
    }
    var code := arg.value;
    var removed := registry.RemovePavilion(code, outcome);
    if removed {
      reply := Unwatched(dm.GetPavilionName(code), code);
    } else {
      reply := NotWatched(code);
    }
  }

  /** `"• *name* (`code`)"` and a line break. */
  function WatchedBullet(name: string, code: string): string {
    "\U{2022} *" + name + "* (`" + code + "`)\n"
  }

  /** The watched-list text for `codes`, one bullet per code in order. */
  function WatchedText(dm: DataManager, codes: seq<string>): string
    reads dm
  {
    if codes == [] then ""
    else WatchedText(dm, codes[..|codes| - 1]) + WatchedBullet(dm.GetPavilionName(codes[|codes| - 1]), codes[|codes| - 1])
  }

  datatype WatchedReply = NothingWatched | WatchedList(codes: seq<string>, text: string)

  /** Every watched code once, with its name from the store. */
  method ListWatchedExpo(dm: DataManager, registry: WatchedPavilionManager) returns (reply: WatchedReply)
    ensures reply.NothingWatched? <==> registry.watchedCodes == {}
    ensures reply.WatchedList? ==>
      && (forall c :: c in reply.codes <==> c in registry.watchedCodes)
      && (forall i, j :: 0 <= i < j < |reply.codes| ==> reply.codes[i] != reply.codes[j])
      && reply.text == WatchedText(dm, reply.codes)
  {
    var codes := registry.GetWatchedList();
    if codes == [] {
      return NothingWatched;
    }
    var text := "";
    for i := 0 to |codes|
      invariant text == WatchedText(dm, codes[..i])
    {
      assert codes[..i + 1][..i] == codes[..i];
      text := text + WatchedBullet(dm.GetPavilionName(codes[i]), codes[i]);
    }
    assert codes[..|codes|] == codes;
    reply := WatchedList(codes, text);
  }

  // ---------------------------------------------------------------------------
  // /show_status_expo

  /** `sorted(schedules.items())`: slots are distinct, so this is the order
      of the slots. */
  method SortedSchedule(schedules: map<string, int>) returns (items: seq<(string, int)>)
    ensures SortedBy(items, SlotOf)
    ensures |items| == |schedules|
    ensures forall i :: 0 <= i < |items| ==> items[i].0 in schedules && schedules[items[i].0] == items[i].1
    ensures forall slot :: slot in schedules ==> (slot, schedules[slot]) in items
  {
    var unsorted: seq<(string, int)> := [];
    var rest := schedules.Keys;
    while rest != {}
      invariant rest <= schedules.Keys
      invariant |unsorted| + |rest| == |schedules|
      invariant forall i :: 0 <= i < |unsorted| ==> unsorted[i].0 in schedules && schedules[unsorted[i].0] == unsorted[i].1
      invariant forall slot :: slot in schedules && slot !in rest ==> (slot, schedules[slot]) in unsorted
      decreases |rest|
    {
      var slot :| slot in rest;
      unsorted := unsorted + [(slot, schedules[slot])];
      rest := rest - {slot};
    }
    items := SortBy(unsorted, SlotOf);
    SortByCorrect(unsorted, SlotOf);
    forall i | 0 <= i < |items| ensures items[i].0 in schedules && schedules[items[i].0] == items[i].1 {
      assert items[i] in multiset(unsorted);
    }
    forall slot | slot in schedules ensures (slot, schedules[slot]) in items {
      assert (slot, schedules[slot]) in multiset(unsorted);
    }
  }

  datatype StatusReply = StatusUsage | StatusNotFound(code: string) | NoSchedule(name: string, code: string)
                       | StatusCard(name: string, link: string, originalUrl: Option<string>, fields: seq<string>)

  /** The status card of one pavilion: its booking link built with the
      caller's ticket IDs (`userTicketIds`, whose store is not part of this
      model), the original page when it differs from that link, and up to
      15 slots in time order. */
  method ShowStatusExpo(dm: DataManager, text: string, userTicketIds: seq<string>, today: string)
    returns (reply: StatusReply, slots: seq<(string, int)>)
    requires dm.Valid()
    ensures CommandCode(text).None? ==> reply == StatusUsage
    ensures CommandCode(text).Some? ==>
      var code := CommandCode(text).value;
      var name := dm.GetPavilionName(code);
      var url := dm.GetPavilionUrl(code);
      var link := TicketLink(code, userTicketIds, today);
      if !IsKnownPavilion(code, name) then reply == StatusNotFound(code)
      else if dm.GetSpecificPavilionStatus(code) == map[] then reply == NoSchedule(name, code)
      else
        && SortedBy(slots, SlotOf)
        && |slots| == |dm.GetSpecificPavilionStatus(code)|
        && (forall i :: 0 <= i < |slots| ==>
              slots[i].0 in dm.GetSpecificPavilionStatus(code) && dm.GetSpecificPavilionStatus(code)[slots[i].0] == slots[i].1)
        && (forall slot :: slot in dm.GetSpecificPavilionStatus(code) ==>
              (slot, dm.GetSpecificPavilionStatus(code)[slot]) in slots)
        && reply == StatusCard(name, link, if url != "" && url != link then Some(url) else None,
                               Truncated(slots, MaxSlotsDisplay, SlotField, SlotsMoreNote))
  {
    slots := [];
    var arg := CommandCode(text);
    if arg.None? {
      return StatusUsage, slots;
    }
    var code := arg.value;
    var name := dm.GetPavilionName(code);
    var url := dm.GetPavilionUrl(code);
    if !IsKnownPavilion(code, name) {
      return StatusNotFound(code), slots;
    }
    var schedules := dm.GetSpecificPavilionStatus(code);
    if schedules == map[] {
      return NoSchedule(name, code), slots;
    }
    var link := TicketLink(code, userTicketIds, today);
    slots := SortedSchedule(schedules);
    var fields := TruncatedPieces(slots, MaxSlotsDisplay, SlotField, SlotsMoreNote);
    var originalUrl := if url != "" && url != link then Some(url) else None;
    reply := StatusCard(name, link, originalUrl, fields);
  }

  // ---------------------------------------------------------------------------
  // Notifications for watched pavilions

  datatype Field = Field(title: string, value: string, short: bool)
  datatype Attachment = Attachment(color: string, title: string, fields: seq<Field>)

  /** The attachment announcing that `slot` of `code` now has `newStatus`:
      coloured by the status, titled with the label's first character, the
      name and the code, with the slot, the label and the booking link. */
  function ChangeAttachment(code: string, name: string, slot: string, newStatus: int, link: string): Attachment
  {
    var caption := StatusText(newStatus);
    Attachment(StatusColor(newStatus), [caption[0]] + " " + name + " (" + code + ")",
               [ Field("Time Slot", FormatSlot(slot), true),
                 Field("Current Status", caption, true),
                 Field("Book URL", "<" + link + "|Link>", true) ])
  }

  /** The `(code, slot)` pairs of `changes` that deserve a notification: the
      code is watched and the recorded old status differs from the new. */
  ghost function Due(changes: Changes, watched: set<string>): set<(string, string)>
  {
    set c, s | c in changes && c in watched && s in changes[c] && changes[c][s].oldStatus != Some(changes[c][s].newStatus) :: (c, s)
  }

  /** The slots of one code's changes whose status really changed. */
  ghost function DueSlots(slotChanges: map<string, Transition>): set<string>
  {
    set s | s in slotChanges && slotChanges[s].oldStatus != Some(slotChanges[s].newStatus)
  }

  /** One attachment per really changed slot of one code. */
  method NotifySlots(code: string, name: string, link: string, slotChanges: map<string, Transition>)
    returns (sent: seq<Attachment>, ghost slots: seq<string>)
    ensures |sent| == |slots|
    ensures forall i, j :: 0 <= i < j < |slots| ==> slots[i] != slots[j]
    ensures forall s :: s in slots <==> s in DueSlots(slotChanges)
    ensures forall i :: 0 <= i < |slots| ==>
      slots[i] in slotChanges && sent[i] == ChangeAttachment(code, name, slots[i], slotChanges[slots[i]].newStatus, link)
  {
    sent, slots := [], [];
    var rest := slotChanges.Keys;
    while rest != {}
      invariant rest <= slotChanges.Keys
      invariant |sent| == |slots|
      invariant forall i, j :: 0 <= i < j < |slots| ==> slots[i] != slots[j]
      invariant forall s :: s in slots <==> s in DueSlots(slotChanges) && s !in rest
      invariant forall i :: 0 <= i < |slots| ==>
        slots[i] in slotChanges && sent[i] == ChangeAttachment(code, name, slots[i], slotChanges[slots[i]].newStatus, link)
      decreases |rest|
    {
      var slot :| slot in rest;
      var t := slotChanges[slot];
      if t.oldStatus != Some(t.newStatus) {
        sent := sent + [ChangeAttachment(code, name, slot, t.newStatus, link)];
        slots := slots + [slot];
      }
      rest := rest - {slot};
    }
  }

  /** The notifications sent for one batch of detected changes: one
      attachment for every slot of a watched code whose status really
      changed, and nothing else. `noticeTicketIds` stands for the ticket IDs
      the link is built with (their store is not part of this model). */
  method NotifyWatchedChanges(dm: DataManager, registry: WatchedPavilionManager, changes: Changes,
                              noticeTicketIds: seq<string>, today: string)
    returns (sent: seq<Attachment>, ghost due: seq<(string, string)>)
    ensures |sent| == |due|
    ensures forall i, j :: 0 <= i < j < |due| ==> due[i] != due[j]
    ensures forall p :: p in due <==> p in Due(changes, registry.watchedCodes)
    ensures forall i :: 0 <= i < |due| ==> Announces(dm, changes, noticeTicketIds, today, due[i], sent[i])
  {
    var watched := registry.GetWatchedList();
    sent, due := [], [];
    var rest := changes.Keys;
    while rest != {}
      invariant rest <= changes.Keys
      invariant |sent| == |due|
      invariant forall i, j :: 0 <= i < j < |due| ==> due[i] != due[j]
      invariant forall p :: p in due <==> p in Due(changes, registry.watchedCodes) && p.0 !in rest
      invariant forall i :: 0 <= i < |due| ==> Announces(dm, changes, noticeTicketIds, today, due[i], sent[i])
      decreases |rest|
    {
      var code :| code in rest;
      if code in watched {
        var more;
        ghost var pairs;
        more, pairs := NotifyCode(dm, changes, noticeTicketIds, today, code);
        DueOfWatchedCode(changes, registry.watchedCodes, code);
        AppendDistinct(due, pairs, rest, code);
        AppendAnnouncements(dm, changes, noticeTicketIds, today, sent, due, more, pairs);
        sent, due := sent + more, due + pairs;
      }
      rest := rest - {code};
    }
  }

  /** The notifications for one watched code, with the `(code, slot)` pairs
      they announce. */
  method NotifyCode(dm: DataManager, changes: Changes, noticeTicketIds: seq<string>, today: string, code: string)
    returns (more: seq<Attachment>, ghost pairs: seq<(string, string)>)
    requires code in changes
    ensures |more| == |pairs|
    ensures forall i, j :: 0 <= i < j < |pairs| ==> pairs[i] != pairs[j]
    ensures forall p :: p in pairs <==> p.0 == code && p.1 in DueSlots(changes[code])
    ensures forall i :: 0 <= i < |pairs| ==> Announces(dm, changes, noticeTicketIds, today, pairs[i], more[i])
  {
    var name := dm.GetPavilionName(code);
    var link := TicketLink(code, noticeTicketIds, today);
    ghost var slots;
    more, slots := NotifySlots(code, name, link, changes[code]);
    pairs := seq(|slots|, i requires 0 <= i < |slots| => (code, slots[i]));
    assert forall i :: 0 <= i < |pairs| ==> pairs[i].1 == slots[i];
    forall p: (string, string) | p.0 == code && p.1 in DueSlots(changes[code]) ensures p in pairs {
      var i :| 0 <= i < |slots| && slots[i] == p.1;
      assert pairs[i] == p;
    }
  }

  lemma AppendDistinct(due: seq<(string, string)>, pairs: seq<(string, string)>, rest: set<string>, code: string)
    requires forall i, j :: 0 <= i < j < |due| ==> due[i] != due[j]
    requires forall i, j :: 0 <= i < j < |pairs| ==> pairs[i] != pairs[j]
    requires forall p :: p in due ==> p.0 !in rest
    requires code in rest && forall p :: p in pairs ==> p.0 == code
    ensures forall i, j :: 0 <= i < j < |due + pairs| ==> (due + pairs)[i] != (due + pairs)[j]
  {
    var all := due + pairs;
    forall i, j | 0 <= i < j < |all| ensures all[i] != all[j] {
      if i < |due| && j >= |due| {
        assert all[i] in due && all[j] in pairs;
      }
    }
  }

  /** `attachment` is the notification for the change `pair` of `changes`. */
  ghost predicate Announces(dm: DataManager, changes: Changes, noticeTicketIds: seq<string>, today: string,
                            pair: (string, string), attachment: Attachment)
    reads dm
  {
    && pair.0 in changes && pair.1 in changes[pair.0]
    && attachment == ChangeAttachment(pair.0, dm.GetPavilionName(pair.0), pair.1, changes[pair.0][pair.1].newStatus,
                                      TicketLink(pair.0, noticeTicketIds, today))
  }

  lemma DueOfWatchedCode(changes: Changes, watched: set<string>, code: string)
    requires code in changes && code in watched
    ensures forall s :: (code, s) in Due(changes, watched) <==> s in DueSlots(changes[code])
  {
  }

  lemma AppendAnnouncements(dm: DataManager, changes: Changes, noticeTicketIds: seq<string>, today: string,
                            sent: seq<Attachment>, due: seq<(string, string)>,
                            more: seq<Attachment>, pairs: seq<(string, string)>)
    requires |sent| == |due| && |more| == |pairs|
    requires forall i :: 0 <= i < |due| ==> Announces(dm, changes, noticeTicketIds, today, due[i], sent[i])
    requires forall i :: 0 <= i < |pairs| ==> Announces(dm, changes, noticeTicketIds, today, pairs[i], more[i])
    ensures forall i :: 0 <= i < |due + pairs| ==> Announces(dm, changes, noticeTicketIds, today, (due + pairs)[i], (sent + more)[i])
  {
    forall i | 0 <= i < |due + pairs| ensures Announces(dm, changes, noticeTicketIds, today, (due + pairs)[i], (sent + more)[i]) {
      if i >= |due| {
        assert (due + pairs)[i] == pairs[i - |due|];
        assert (sent + more)[i] == more[i - |due|];
      }
    }
  }

  /** For the changes `apply_updates` reports, the `old != new` test never
      filters anything out: every reported slot of a watched code gets its
      notification. */
  lemma ReportedChangesAreDue(store: map<string, map<string, int>>, delta: Delta, watched: set<string>)
    ensures var changes := ApplyDelta(Ingest(store, map[]), delta).changes;
      forall c, s :: (c, s) in Due(changes, watched) <==> c in watched && Reported(changes, c, s)
  {
    ApplyDeltaReportsExactly(store, delta);
  }
}
