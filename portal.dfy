/** What the ITC-LMS and UTOL course-portal bots share once a page has been
    scraped: picking tasks of one kind, the digest of tasks posted to Slack, and
    the update digest that posts only records not seen on the previous run,
    coloured by their kind of content. */
module Portal {
  import opened Wrappers
  import opened Text

  /** A row of the list of tasks. */
  datatype Task = Task(courseName: string, contents: string, title: string, deadline: string, link: string)

  /** A row of the update list; two records are the same update when every
      field agrees. */
  datatype UpdateRecord = UpdateRecord(date: string, course: string, content: string, info: string, link: string)

  /** A Slack attachment as the bots build it. */
  datatype Attachment = Attachment(color: string, title: string, titleLink: string, text: string)

  /** A message posted to a channel. */
  datatype SlackPost = SlackPost(channel: string, text: string, attachments: seq<Attachment>)

  /** The two course portals: UTOL (`src/UTOL.py`) and ITC-LMS (`src/LMS.py`
      and its older copy `LMS.py`, which posts tasks only). */
  datatype Site = Utol | ItcLms

  function TasksChannel(site: Site): string {
    match site
    case Utol => "#utol-tasks"
    case ItcLms => "#itclms-tasks"
  }

  function UpdatesChannel(site: Site): string {
    match site
    case Utol => "#utol-updates"
    case ItcLms => "#itclms-updates"
  }

  // ---------------------------------------------------------------------------
  // Order-preserving filters

  /** The elements of `xs` that `keep` accepts, in their order. */
  function Filter<T>(xs: seq<T>, keep: T -> bool): (ys: seq<T>)
    ensures |ys| <= |xs|
  {
    if xs == [] then []
    else
      var init := Filter(xs[..|xs| - 1], keep);
      if keep(xs[|xs| - 1]) then init + [xs[|xs| - 1]] else init
  }

  /** Where the kept elements come from: strictly increasing positions of
      `xs`, holding the kept elements in order, and covering every position
      whose element is accepted. So the filter keeps exactly the accepted
      elements, each once, in their original order. */
  lemma {:induction false} FilterPositions<T>(xs: seq<T>, keep: T -> bool) returns (idx: seq<nat>)
    ensures |idx| == |Filter(xs, keep)|
    ensures forall i, j :: 0 <= i < j < |idx| ==> idx[i] < idx[j]
    ensures forall i :: 0 <= i < |idx| ==> idx[i] < |xs| && xs[idx[i]] == Filter(xs, keep)[i]
    ensures forall k :: 0 <= k < |xs| && keep(xs[k]) ==> k in idx
    ensures forall k :: k in idx ==> 0 <= k < |xs| && keep(xs[k])
  {
    if xs == [] {
      idx := [];
    } else {
      var n := |xs| - 1;
      var before := FilterPositions(xs[..n], keep);
      idx := ExtendPositions(xs, keep, before);
    }
  }

  /** The step of `FilterPositions`: positions for all but the last element
      extend to positions for the whole sequence. */
  lemma ExtendPositions<T>(xs: seq<T>, keep: T -> bool, before: seq<nat>) returns (idx: seq<nat>)
    requires xs != []
    requires var init := xs[..|xs| - 1];
      && |before| == |Filter(init, keep)|
      && (forall i, j :: 0 <= i < j < |before| ==> before[i] < before[j])
      && (forall i :: 0 <= i < |before| ==> before[i] < |init| && init[before[i]] == Filter(init, keep)[i])
      && (forall k :: 0 <= k < |init| && keep(init[k]) ==> k in before)
      && (forall k :: k in before ==> 0 <= k < |init| && keep(init[k]))
    ensures |idx| == |Filter(xs, keep)|
    ensures forall i, j :: 0 <= i < j < |idx| ==> idx[i] < idx[j]
    ensures forall i :: 0 <= i < |idx| ==> idx[i] < |xs| && xs[idx[i]] == Filter(xs, keep)[i]
    ensures forall k :: 0 <= k < |xs| && keep(xs[k]) ==> k in idx
    ensures forall k :: k in idx ==> 0 <= k < |xs| && keep(xs[k])
  {
    var n := |xs| - 1;
    var init := xs[..n];
    var ys := Filter(init, keep);
    assert forall k :: 0 <= k < n ==> init[k] == xs[k];
    if keep(xs[n]) {
      idx := before + [n];
      assert Filter(xs, keep) == ys + [xs[n]];
    } else {
      idx := before;
      assert Filter(xs, keep) == ys;
    }
  }

  /** A filter that accepts every element keeps the whole sequence. */
  lemma {:induction false} FilterKeepsAll<T>(xs: seq<T>, keep: T -> bool)
    requires forall x :: x in xs ==> keep(x)
    ensures Filter(xs, keep) == xs
  {
    if xs != [] {
      FilterKeepsAll(xs[..|xs| - 1], keep);
      assert xs[..|xs| - 1] + [xs[|xs| - 1]] == xs;
    }
  }

  /** A filter that accepts no element keeps nothing. */
  lemma {:induction false} FilterRejectsAll<T>(xs: seq<T>, keep: T -> bool)
    requires forall x :: x in xs ==> !keep(x)
    ensures Filter(xs, keep) == []
  {
    if xs != [] {
      FilterRejectsAll(xs[..|xs| - 1], keep);
    }
  }

  /** Membership in a filter, both ways. */
  lemma FilterMembers<T>(xs: seq<T>, keep: T -> bool)
    ensures forall x :: x in Filter(xs, keep) <==> x in xs && keep(x)
  {
    var ys := Filter(xs, keep);
    var idx := FilterPositions(xs, keep);
    forall x | x in ys ensures x in xs && keep(x) {
      var i :| 0 <= i < |ys| && ys[i] == x;
      assert idx[i] in idx;
    }
    forall x | x in xs && keep(x) ensures x in ys {
      var k :| 0 <= k < |xs| && xs[k] == x;
      var i :| 0 <= i < |idx| && idx[i] == k;
    }
  }

  // ---------------------------------------------------------------------------
  // getSpecificList

  function OfKind(kind: string): Task -> bool {
    (t: Task) => t.contents == kind
  }

  /** `getSpecificList`: the tasks whose `contents` is `kind`, in order. */
  method GetSpecificList(tasks: seq<Task>, kind: string) returns (res: seq<Task>)
    ensures res == Filter(tasks, OfKind(kind))
  {
    res := [];
    for i := 0 to |tasks|
      invariant res == Filter(tasks[..i], OfKind(kind))
    {
      assert tasks[..i + 1][..i] == tasks[..i];
      if tasks[i].contents == kind {
        res := res + [tasks[i]];
      }
    }
    assert tasks[..|tasks|] == tasks;
  }

  // ---------------------------------------------------------------------------
  // sendTasks

  /** `"未提出の課題: N 件"`, the headline of the digest of tasks. */
  function TasksHeadline(count: nat): string {
    "未提出の課題: " + IntToString(count) + " 件"
  }

  /** One task as an attachment: green, titled and linked with its title and link,
      its text naming the course and the deadline. */
  function TaskAttachment(task: Task): Attachment {
    Attachment("good", task.title, task.link, "・コース名: " + task.courseName + "\n・期限: " + task.deadline)
  }

  /** `sendTasks`: posts to the site's task channel the headline with the
      number of tasks and one attachment per task, in order. */
  method SendTasks(site: Site, tasks: seq<Task>) returns (post: SlackPost)
    ensures post.channel == TasksChannel(site) && post.text == TasksHeadline(|tasks|)
    ensures |post.attachments| == |tasks|
    ensures forall i :: 0 <= i < |tasks| ==> post.attachments[i] == TaskAttachment(tasks[i])
  {
    var data: seq<Attachment> := [];
    for i := 0 to |tasks|
      invariant |data| == i
      invariant forall k :: 0 <= k < i ==> data[k] == TaskAttachment(tasks[k])
    {
      data := data + [TaskAttachment(tasks[i])];
    }
    post := SlackPost(TasksChannel(site), TasksHeadline(|tasks|), data);
  }

  /** The headline tells the number of tasks exactly. */
  lemma TasksHeadlineInjective(m: nat, n: nat)
    requires TasksHeadline(m) == TasksHeadline(n)
    ensures m == n
  {
    var prefix := "未提出の課題: ";
    var a, b := TasksHeadline(m), TasksHeadline(n);
    assert IntToString(m) == a[|prefix|..|a| - 2];
    assert IntToString(n) == b[|prefix|..|b| - 2];
    IntToStringInjective(m, n);
  }

  // ---------------------------------------------------------------------------
  // sendUpdates

  const DangerContents: set<string> := {"課題", "テスト"}
  const WarningContents: set<string> := {"お知らせ", "担当教員へのメッセージ", "アンケート", "掲示板"}
  const MaterialContent := "教材"
  const DefaultColor := "#f5f5f5"

  /** The colour of an update by its kind of content: assignments and tests
      are `danger`, notices, messages, surveys and boards `warning`,
      materials `good`, anything else light grey. */
  function ContentColor(content: string): (color: string)
    ensures color == "danger" <==> content in DangerContents
    ensures color == "warning" <==> content in WarningContents
    ensures color == "good" <==> content == MaterialContent
    ensures color == DefaultColor <==> content !in DangerContents + WarningContents + {MaterialContent}
  {
    if content in DangerContents then "danger"
    else if content in WarningContents then "warning"
    else if content == MaterialContent then "good"
    else DefaultColor
  }

  /** The source's successive `if`s, each overriding the colour chosen
      before; the three kinds are disjoint, so exactly one rule or none
      applies and the result is the bucket of `ContentColor`. */
  method ClassifyContent(content: string) returns (colorStr: string)
    ensures colorStr == ContentColor(content)
  {
    colorStr := DefaultColor;
    if content == "課題" || content == "テスト" {
      colorStr := "danger";
    }
    if content == "お知らせ" || content == "担当教員へのメッセージ" || content == "アンケート" || content == "掲示板" {
      colorStr := "warning";
    }
    if content == MaterialContent {
      colorStr := "good";
    }
  }

  /** One update as an attachment: coloured by content, titled with the
      course, linked to the update, its text the update's summary. */
  function UpdateAttachment(update: UpdateRecord): Attachment {
    Attachment(ContentColor(update.content), update.course, update.link, update.info)
  }

  function UpdateAttachments(updates: seq<UpdateRecord>): (attachments: seq<Attachment>)
    ensures |attachments| == |updates|
  {
    seq(|updates|, i requires 0 <= i < |updates| => UpdateAttachment(updates[i]))
  }

  function NotIn(previous: seq<UpdateRecord>): UpdateRecord -> bool {
    (u: UpdateRecord) => u !in previous
  }

  /** The updates not found, as whole records, in the previous list. */
  function NewUpdates(updates: seq<UpdateRecord>, previous: seq<UpdateRecord>): seq<UpdateRecord> {
    Filter(updates, NotIn(previous))
  }

  /** `sendUpdates`, posting to the site's update channel. `stored` is the
      list saved by the previous run, `None` when it could not be loaded
      (then nothing counts as seen). Posts one attachment per unseen update,
      in order, and only when there is one; the list stored for the next run
      is the current list. */
  method SendUpdates(site: Site, updates: seq<UpdateRecord>, stored: Option<seq<UpdateRecord>>)
    returns (post: Option<SlackPost>, storedAfter: seq<UpdateRecord>)
    ensures var unseen := NewUpdates(updates, stored.GetOr([]));
      && (post.Some? <==> unseen != [])
      && (post.Some? ==> post.value == SlackPost(UpdatesChannel(site), "", UpdateAttachments(unseen)))
    ensures storedAfter == updates
  {
    var data := if stored.Some? then stored.value else [];
    var sendLists: seq<Attachment> := [];
    for i := 0 to |updates|
      invariant sendLists == UpdateAttachments(Filter(updates[..i], NotIn(data)))
    {
      assert updates[..i + 1][..i] == updates[..i];
      var update := updates[i];
      if update !in data {
        var colorStr := ClassifyContent(update.content);
        sendLists := sendLists + [Attachment(colorStr, update.course, update.link, update.info)];
      }
    }
    assert updates[..|updates|] == updates;
    if |sendLists| > 0 {
      post := Some(SlackPost(UpdatesChannel(site), "", sendLists));
    } else {
      post := None;
    }
    storedAfter := updates;
  }

  /** Exactly the current updates that were not in the previous list are
      reported. */
  lemma NewUpdatesExactly(updates: seq<UpdateRecord>, previous: seq<UpdateRecord>)
    ensures forall u :: u in NewUpdates(updates, previous) <==> u in updates && u !in previous
  {
    FilterMembers(updates, NotIn(previous));
  }

  /** With no previous list, every update is reported. */
  lemma EverythingNewWithoutHistory(updates: seq<UpdateRecord>)
    ensures NewUpdates(updates, []) == updates
  {
    FilterKeepsAll(updates, NotIn([]));
  }

  /** The next run over the same updates reports nothing, because the stored
      list is replaced by the current one. */
  lemma RerunIsSilent(updates: seq<UpdateRecord>)
    ensures NewUpdates(updates, updates) == []
  {
    FilterRejectsAll(updates, NotIn(updates));
  }

  /** The stored list is replaced, not merged: an update seen two runs ago
      but missing from the last run is reported again when it reappears. */
  lemma ReplacedHistoryForgets(u: UpdateRecord, lastRun: seq<UpdateRecord>, current: seq<UpdateRecord>)
    requires u !in lastRun && u in current
    ensures u in NewUpdates(current, lastRun)
  {
    NewUpdatesExactly(current, lastRun);
  }
}
