/**
 * The scheduled due-soon reminder (app/api/email-reminder/route.ts): select the
 * goals that are not done and whose deadline is today or tomorrow, group them
 * by owner, and build one plain-text e-mail per owner who has an address.
 * The database and the mail service are inputs: the weekly_goals table and
 * whether its query failed, the profiles by user id (a missing id is a failed
 * or empty lookup), and the addresses for which sending throws.
 */
module EmailReminder {
  import opened Base
  import opened Types

  /** Lines 26-31: state is not "done", a deadline is set, and it is today's or tomorrow's date text. */
  function Selected(g: GoalRow, today: string, tomorrow: string): (r: bool)
    ensures g.state == Done || g.deadline.None? ==> !r
    ensures g.state != Done && g.deadline.Some? ==> (r <==> g.deadline.value in {today, tomorrow})
  {
    g.state != Done && g.deadline.Some? && (g.deadline.value == today || g.deadline.value == tomorrow)
  }

  /** The query result, in table order. */
  function SelectDueSoon(rows: seq<GoalRow>, today: string, tomorrow: string): (r: seq<GoalRow>)
    ensures |r| <= |rows|
    ensures forall g :: g in r <==> g in rows && Selected(g, today, tomorrow)
  {
    if rows == [] then []
    else if Selected(rows[0], today, tomorrow) then [rows[0]] + SelectDueSoon(rows[1..], today, tomorrow)
    else SelectDueSoon(rows[1..], today, tomorrow)
  }

  /** The owners of `goals`, each once, in order of first appearance (the key order of `goalsByUser`). */
  function UserOrder(goals: seq<GoalRow>): (keys: seq<string>)
    ensures forall i, j :: 0 <= i < j < |keys| ==> keys[i] != keys[j]
    ensures forall u :: u in keys <==> exists g :: g in goals && g.userId == u
    ensures |keys| <= |goals|
  {
    if goals == [] then []
    else
      var prev := UserOrder(goals[..|goals| - 1]);
      var g := goals[|goals| - 1];
      assert forall h :: h in goals <==> h in goals[..|goals| - 1] || h == g;
      if g.userId in prev then prev else prev + [g.userId]
  }

  /** The position of the first goal owned by `userId`, or the length of the list when it owns none. */
  function FirstAt(goals: seq<GoalRow>, userId: string): (r: nat)
    ensures r <= |goals|
    ensures r < |goals| ==> goals[r].userId == userId
    ensures forall k :: 0 <= k < r ==> goals[k].userId != userId
  {
    if goals == [] then 0
    else
      var prev := FirstAt(goals[..|goals| - 1], userId);
      if prev < |goals| - 1 then prev
      else if goals[|goals| - 1].userId == userId then |goals| - 1
      else |goals|
  }

  /** An owner has a key exactly when it owns a goal, that is when its first goal lies inside the list. */
  lemma KeyIffFirstInside(goals: seq<GoalRow>, userId: string)
    ensures userId in UserOrder(goals) <==> FirstAt(goals, userId) < |goals|
  {
    if FirstAt(goals, userId) < |goals| {
      assert goals[FirstAt(goals, userId)] in goals;
    }
  }

  /** The key order is the order in which owners first appear in the goals. */
  lemma {:induction false} UserOrderFirstAppearance(goals: seq<GoalRow>)
    ensures var keys := UserOrder(goals);
      forall i, j :: 0 <= i < j < |keys| ==> FirstAt(goals, keys[i]) < FirstAt(goals, keys[j]) < |goals|
  {
    if goals != [] {
      var prefix, g := goals[..|goals| - 1], goals[|goals| - 1];
      var prev, keys := UserOrder(prefix), UserOrder(goals);
      UserOrderFirstAppearance(prefix);
      forall i | 0 <= i < |prev|
        ensures FirstAt(goals, prev[i]) == FirstAt(prefix, prev[i]) < |prefix|
      {
        KeyIffFirstInside(prefix, prev[i]);
      }
      if g.userId !in prev {
        KeyIffFirstInside(prefix, g.userId);
        assert keys == prev + [g.userId];
        assert FirstAt(goals, g.userId) == |prefix|;
      }
    }
  }

  lemma OwnedBySnoc(goals: seq<GoalRow>, g: GoalRow, userId: string)
    ensures OwnedBy(goals + [g], userId) == OwnedBy(goals, userId) + (if g.userId == userId then [g] else [])
  {
    OwnedByAppend(goals, [g], userId);
    assert [g][1..] == [];
  }

  /** An owner that is not among the keys has no goal at all. */
  lemma NoKeyNoGoals(goals: seq<GoalRow>, userId: string)
    requires userId !in UserOrder(goals)
    ensures OwnedBy(goals, userId) == []
  {
  }

  /**
   * Lines 43-49.  Every selected goal is filed under its own owner's key, in
   * fetch order; a key exists only for an owner with at least one goal.
   */
  method GroupByUser(goals: seq<GoalRow>) returns (groups: map<string, seq<GoalRow>>, keys: seq<string>)
    ensures keys == UserOrder(goals)
    ensures forall u :: u in groups <==> u in keys
    ensures forall u :: u in groups ==> groups[u] == OwnedBy(goals, u) && groups[u] != []
  {
    groups, keys := map[], [];
    var i := 0;
    while i < |goals|
      invariant 0 <= i <= |goals|
      invariant groups == GroupsOf(goals[..i]) && keys == UserOrder(goals[..i])
    {
      var goal := goals[i];
      GroupsOfStep(goals, i);
      ghost var before := groups;
      if goal.userId !in groups {
        groups := groups[goal.userId := []];
        keys := keys + [goal.userId];
      }
      groups := groups[goal.userId := groups[goal.userId] + [goal]];
      assert groups == FileGoal(before, goal);
      i := i + 1;
    }
    assert goals[..i] == goals;
    GroupsOfKeys(goals);
    GroupsOfOwners(goals);
  }

  /** One step of the grouping loop: start the owner's group when it has none, then push the goal onto it. */
  function FileGoal(groups: map<string, seq<GoalRow>>, g: GoalRow): map<string, seq<GoalRow>> {
    var started := if g.userId in groups then groups else groups[g.userId := []];
    started[g.userId := started[g.userId] + [g]]
  }

  /** The map the grouping loop has built after the goals `goals`. */
  ghost function GroupsOf(goals: seq<GoalRow>): map<string, seq<GoalRow>> {
    if goals == [] then map[] else FileGoal(GroupsOf(goals[..|goals| - 1]), goals[|goals| - 1])
  }

  /** What the grouping loop's state is after one more goal. */
  lemma GroupsOfStep(goals: seq<GoalRow>, i: nat)
    requires i < |goals|
    ensures GroupsOf(goals[..i + 1]) == FileGoal(GroupsOf(goals[..i]), goals[i])
    ensures goals[i].userId in GroupsOf(goals[..i]) <==> goals[i].userId in UserOrder(goals[..i])
    ensures UserOrder(goals[..i + 1]) ==
              if goals[i].userId in UserOrder(goals[..i]) then UserOrder(goals[..i]) else UserOrder(goals[..i]) + [goals[i].userId]
  {
    assert goals[..i + 1][..i] == goals[..i];
    GroupsOfKeys(goals[..i]);
  }

  /** The grouped map has a key exactly for each owner in the key order. */
  lemma {:induction false} GroupsOfKeys(goals: seq<GoalRow>)
    ensures forall u :: u in GroupsOf(goals) <==> u in UserOrder(goals)
  {
    if goals != [] {
      GroupsOfKeys(goals[..|goals| - 1]);
    }
  }

  /** Each group is its owner's goals, in order, and is never empty. */
  lemma {:induction false} GroupsOfOwners(goals: seq<GoalRow>)
    ensures forall u :: u in GroupsOf(goals) ==> GroupsOf(goals)[u] == OwnedBy(goals, u) && GroupsOf(goals)[u] != []
  {
    if goals != [] {
      var prefix, g := goals[..|goals| - 1], goals[|goals| - 1];
      assert goals == prefix + [g];
      GroupsOfOwners(prefix);
      var before := GroupsOf(prefix);
      if g.userId !in before {
        GroupsOfKeys(prefix);
        NoKeyNoGoals(prefix, g.userId);
      }
      forall u | u in GroupsOf(goals)
        ensures GroupsOf(goals)[u] == OwnedBy(goals, u) && GroupsOf(goals)[u] != []
      {
        OwnedBySnoc(prefix, g, u);
        if u == g.userId {
          assert GroupsOf(goals)[u] == (if u in before then before[u] else []) + [g];
        } else {
          assert GroupsOf(goals)[u] == before[u];
        }
      }
    }
  }

  /** The total size of the groups of `keys`. */
  function GroupSizes(keys: seq<string>, goals: seq<GoalRow>): nat {
    if keys == [] then 0 else GroupSizes(keys[..|keys| - 1], goals) + |OwnedBy(goals, keys[|keys| - 1])|
  }

  lemma {:induction false} GroupSizesAddGoal(keys: seq<string>, goals: seq<GoalRow>, g: GoalRow)
    requires forall i, j :: 0 <= i < j < |keys| ==> keys[i] != keys[j]
    ensures GroupSizes(keys, goals + [g]) == GroupSizes(keys, goals) + (if g.userId in keys then 1 else 0)
  {
    if keys != [] {
      var init := keys[..|keys| - 1];
      var last := keys[|keys| - 1];
      GroupSizesAddGoal(init, goals, g);
      OwnedByAppend(goals, [g], last);
      assert last !in init;
      assert g.userId in keys <==> g.userId in init || g.userId == last;
    }
  }

  /** The groups partition the selection: their sizes add up to the number of selected goals. */
  lemma {:induction false} GroupsPartition(goals: seq<GoalRow>)
    ensures GroupSizes(UserOrder(goals), goals) == |goals|
  {
    if goals != [] {
      var p := goals[..|goals| - 1];
      var g := goals[|goals| - 1];
      assert goals == p + [g];
      GroupsPartition(p);
      var keys := UserOrder(p);
      GroupSizesAddGoal(keys, p, g);
      if g.userId !in keys {
        assert UserOrder(goals) == keys + [g.userId];
        assert (keys + [g.userId])[..|keys|] == keys;
        OwnedByAppend(p, [g], g.userId);
        NoKeyNoGoals(p, g.userId);
        GroupSizesAddGoal(keys, p, g);
      }
    }
  }

  /** Line 70, written line by line. */
  const Greeting := "Hi," + "\n\n" + "You have the following goals due soon:" + "\n\n"
  /** Line 74, written line by line. */
  const SignOff := "\n" + "Best regards," + "\n" + "Your App Team"
  const Sender := "notifications@yourdomain.com"
  const Subject := "Reminder: Your Goals Are Due Soon"

  /** `${goal.deadline}`: the text, or "null" when there is none. */
  function DeadlineText(d: Option<string>): string {
    if d.Some? then d.value else "null"
  }

  /** Line 72: a dash, the title, the deadline text in parentheses, and a line break. */
  function GoalLine(g: GoalRow): (s: string)
    ensures |s| >= |g.title| + 4 && s[..2] == "- " && s[2..2 + |g.title|] == g.title
    ensures s[|s| - 2..] == ")\n"
  {
    var tail := " (Deadline: " + DeadlineText(g.deadline) + ")\n";
    var s := "- " + g.title + tail;
    assert s[|s| - 2..] == tail[|tail| - 2..];
    s
  }

  /** One line per goal, in order: empty exactly without goals, and otherwise ending with a line break. */
  function Lines(goals: seq<GoalRow>): (s: string)
    ensures s == "" <==> goals == []
    ensures s != "" ==> s[|s| - 1] == '\n'
  {
    if goals == [] then "" else Lines(goals[..|goals| - 1]) + GoalLine(goals[|goals| - 1])
  }

  lemma {:induction false} LinesAppend(a: seq<GoalRow>, b: seq<GoalRow>)
    ensures Lines(a + b) == Lines(a) + Lines(b)
    decreases |b|
  {
    if b == [] {
      assert a + b == a;
    } else {
      var init, last := b[..|b| - 1], b[|b| - 1];
      var ab := a + b;
      assert ab[..|ab| - 1] == a + init && ab[|ab| - 1] == last;
      LinesSnoc(ab);
      LinesSnoc(b);
      LinesAppend(a, init);
      Assoc(Lines(a), Lines(init), GoalLine(last));
    }
  }

  lemma LinesSnoc(goals: seq<GoalRow>)
    requires goals != []
    ensures Lines(goals) == Lines(goals[..|goals| - 1]) + GoalLine(goals[|goals| - 1])
  {
  }

  /** One more goal adds its line at the end. */
  lemma LinesStep(goals: seq<GoalRow>, i: nat)
    requires i < |goals|
    ensures Lines(goals[..i + 1]) == Lines(goals[..i]) + GoalLine(goals[i])
  {
    assert goals[..i + 1][..i] == goals[..i];
    LinesSnoc(goals[..i + 1]);
  }

  lemma Assoc(x: string, y: string, z: string)
    ensures x + y + z == x + (y + z)
  {
  }

  /** Lines 70-74: greeting, one line per goal, sign-off. */
  method BuildEmailBody(goals: seq<GoalRow>) returns (body: string)
    ensures body == Greeting + Lines(goals) + SignOff
  {
    body := Greeting;
    var i := 0;
    while i < |goals|
      invariant 0 <= i <= |goals|
      invariant body == Greeting + Lines(goals[..i])
    {
      var line := GoalLine(goals[i]);
      LinesStep(goals, i);
      Assoc(Greeting, Lines(goals[..i]), line);
      body := body + line;
      i := i + 1;
    }
    assert goals[..i] == goals;
    body := body + SignOff;
  }

  function CountChar(s: string, c: char): nat {
    if s == [] then 0 else CountChar(s[..|s| - 1], c) + (if s[|s| - 1] == c then 1 else 0)
  }

  lemma {:induction false} CountCharAppend(a: string, b: string, c: char)
    ensures CountChar(a + b, c) == CountChar(a, c) + CountChar(b, c)
    decreases |b|
  {
    if b == [] {
      assert a + b == a;
    } else {
      assert (a + b)[..|a + b| - 1] == a + b[..|b| - 1];
      CountCharAppend(a, b[..|b| - 1], c);
    }
  }

  predicate NoNewline(s: string) {
    forall k :: 0 <= k < |s| ==> s[k] != '\n'
  }

  lemma NoNewlineJoin(a: string, b: string)
    requires NoNewline(a) && NoNewline(b)
    ensures NoNewline(a + b)
  {
  }

  lemma {:induction false} NoNewlineCount(s: string)
    requires NoNewline(s)
    ensures CountChar(s, '\n') == 0
  {
    if s != [] {
      NoNewlineCount(s[..|s| - 1]);
    }
  }

  /** A line of text followed by its break holds one break. */
  lemma CountLine(s: string)
    requires NoNewline(s)
    ensures CountChar(s + "\n", '\n') == 1
  {
    NoNewlineCount(s);
    CountCharAppend(s, "\n", '\n');
  }

  lemma GreetingBreaks()
    ensures CountChar(Greeting, '\n') == 4
  {
    var hi, lead := "Hi,", "You have the following goals due soon:";
    NoNewlineCount(hi);
    NoNewlineCount(lead);
    assert CountChar("\n\n", '\n') == 2;
    CountCharAppend(hi, "\n\n", '\n');
    CountCharAppend(hi + "\n\n", lead, '\n');
    CountCharAppend(hi + "\n\n" + lead, "\n\n", '\n');
  }

  lemma SignOffBreaks()
    ensures CountChar(SignOff, '\n') == 2
  {
    var regards, team := "Best regards,", "Your App Team";
    NoNewlineCount(regards);
    NoNewlineCount(team);
    assert CountChar("\n", '\n') == 1;
    CountCharAppend("\n", regards, '\n');
    CountCharAppend("\n" + regards, "\n", '\n');
    CountCharAppend("\n" + regards + "\n", team, '\n');
  }

  /**
   * When no title or deadline holds a line break, the body has exactly one
   * line per goal between the greeting's four and the sign-off's two breaks.
   */
  lemma {:induction false} BodyHasOneLinePerGoal(goals: seq<GoalRow>)
    requires forall k :: 0 <= k < |goals| ==> NoNewline(goals[k].title) && NoNewline(DeadlineText(goals[k].deadline))
    ensures CountChar(Greeting + Lines(goals) + SignOff, '\n') == |goals| + 6
  {
    LinesNewlines(goals);
    CountCharAppend(Greeting + Lines(goals), SignOff, '\n');
    CountCharAppend(Greeting, Lines(goals), '\n');
    GreetingBreaks();
    SignOffBreaks();
  }

  lemma {:induction false} LinesNewlines(goals: seq<GoalRow>)
    requires forall k :: 0 <= k < |goals| ==> NoNewline(goals[k].title) && NoNewline(DeadlineText(goals[k].deadline))
    ensures CountChar(Lines(goals), '\n') == |goals|
  {
    if goals != [] {
      var init, g := goals[..|goals| - 1], goals[|goals| - 1];
      assert forall k :: 0 <= k < |init| ==> init[k] == goals[k];
      LinesNewlines(init);
      assert Lines(goals) == Lines(init) + GoalLine(g);
      CountCharAppend(Lines(init), GoalLine(g), '\n');
      GoalLineBreaks(g);
    }
  }

  /** A goal line holds exactly one break when its title and deadline hold none. */
  lemma GoalLineBreaks(g: GoalRow)
    requires NoNewline(g.title) && NoNewline(DeadlineText(g.deadline))
    ensures CountChar(GoalLine(g), '\n') == 1
  {
    var p1, p2 := "- " + g.title, " (Deadline: " + DeadlineText(g.deadline);
    var head := p1 + p2 + ")";
    assert GoalLine(g) == head + "\n";
    NoNewlineJoin("- ", g.title);
    NoNewlineJoin(" (Deadline: ", DeadlineText(g.deadline));
    NoNewlineJoin(p1, p2);
    NoNewlineJoin(p1 + p2, ")");
    CountLine(head);
  }

  datatype ProfileRow = ProfileRow(email: Option<string>)

  /** Lines 62-65: a profile was found and its email is set and non-empty. */
  predicate HasAddress(profiles: map<string, ProfileRow>, userId: string) {
    userId in profiles && profiles[userId].email.Some? && profiles[userId].email.value != ""
  }

  datatype Email = Email(from: string, to: string, subject: string, text: string)

  /** Lines 67-83: the e-mail to one owner, sent to the profile's non-empty address with the body built from that owner's goals. */
  function MailFor(userId: string, goals: seq<GoalRow>, profiles: map<string, ProfileRow>): (e: Email)
    requires HasAddress(profiles, userId)
    ensures e.from == Sender && e.subject == Subject
    ensures e.to == profiles[userId].email.value && e.to != ""
    ensures e.text == Greeting + Lines(OwnedBy(goals, userId)) + SignOff
  {
    Email(Sender, profiles[userId].email.value, Subject, Greeting + Lines(OwnedBy(goals, userId)) + SignOff)
  }

  /** The keys whose profile holds a non-empty address, in key order. */
  function Addressed(keys: seq<string>, profiles: map<string, ProfileRow>): (a: seq<string>)
    ensures |a| <= |keys|
    ensures forall u :: u in a <==> u in keys && HasAddress(profiles, u)
    ensures (forall i, j :: 0 <= i < j < |keys| ==> keys[i] != keys[j]) ==> forall i, j :: 0 <= i < j < |a| ==> a[i] != a[j]
  {
    if keys == [] then []
    else
      var u := keys[|keys| - 1];
      var prev := Addressed(keys[..|keys| - 1], profiles);
      assert forall v :: v in keys <==> v in keys[..|keys| - 1] || v == u;
      if HasAddress(profiles, u) then prev + [u] else prev
  }

  /** The e-mails sent to the owners in `keys`, skipping those without an address: the i-th e-mail is
      the mail of the i-th key that has an address, so with distinct keys each such key gets exactly one. */
  function Outbox(keys: seq<string>, goals: seq<GoalRow>, profiles: map<string, ProfileRow>): (r: seq<Email>)
    ensures |r| <= |keys|
    ensures |r| == |Addressed(keys, profiles)|
    ensures forall i :: 0 <= i < |r| ==> r[i] == MailFor(Addressed(keys, profiles)[i], goals, profiles)
  {
    if keys == [] then []
    else
      var u := keys[|keys| - 1];
      var prev := Outbox(keys[..|keys| - 1], goals, profiles);
      if HasAddress(profiles, u) then prev + [MailFor(u, goals, profiles)] else prev
  }

  /** Every key with an address gets its e-mail, and every e-mail is for such a key. */
  lemma {:induction false} OutboxAddressed(keys: seq<string>, goals: seq<GoalRow>, profiles: map<string, ProfileRow>)
    ensures forall u :: u in keys && HasAddress(profiles, u) ==> MailFor(u, goals, profiles) in Outbox(keys, goals, profiles)
    ensures forall e :: e in Outbox(keys, goals, profiles) ==>
              exists u :: u in keys && HasAddress(profiles, u) && e == MailFor(u, goals, profiles)
  {
    if keys != [] {
      var init := keys[..|keys| - 1];
      OutboxAddressed(init, goals, profiles);
      assert forall v :: v in keys <==> v in init || v == keys[|keys| - 1];
    }
  }

  /** The key loop's state after one more key. */
  lemma OutboxStep(keys: seq<string>, i: nat, goals: seq<GoalRow>, profiles: map<string, ProfileRow>)
    requires i < |keys|
    ensures Outbox(keys[..i + 1], goals, profiles)
         == Outbox(keys[..i], goals, profiles) + (if HasAddress(profiles, keys[i]) then [MailFor(keys[i], goals, profiles)] else [])
  {
    assert keys[..i + 1][..i] == keys[..i];
  }

  datatype Response = FetchFailed | NothingDue | Notified {
    function Message(): string {
      match this
      case FetchFailed => "Failed to fetch goals"
      case NothingDue => "No goals due today or tomorrow"
      case Notified => "Notifications sent successfully"
    }
  }

  /**
   * The GET handler.  `attempted` are the send calls made, in key order;
   * `delivered` those that did not throw.  A failed send does not stop the loop.
   */
  method SendReminders(rows: seq<GoalRow>, goalsError: bool, today: string, tomorrow: string,
                       profiles: map<string, ProfileRow>, failingAddresses: set<string>)
    returns (response: Response, attempted: seq<Email>, delivered: seq<Email>)
    ensures goalsError ==> response == FetchFailed && attempted == []
    ensures !goalsError && SelectDueSoon(rows, today, tomorrow) == [] ==> response == NothingDue && attempted == []
    ensures !goalsError && SelectDueSoon(rows, today, tomorrow) != [] ==>
              var selected := SelectDueSoon(rows, today, tomorrow);
              response == Notified && attempted == Outbox(UserOrder(selected), selected, profiles)
    ensures forall e :: e in delivered <==> e in attempted && e.to !in failingAddresses
  {
    attempted, delivered := [], [];
    if goalsError {
      return FetchFailed, attempted, delivered;
    }
    var goals := SelectDueSoon(rows, today, tomorrow);
    if goals == [] {
      return NothingDue, attempted, delivered;
    }
    var groups, keys := GroupByUser(goals);
    var i := 0;
    while i < |keys|
      invariant 0 <= i <= |keys|
      invariant attempted == Outbox(keys[..i], goals, profiles)
      invariant forall e :: e in delivered <==> e in attempted && e.to !in failingAddresses
    {
      var userId := keys[i];
      OutboxStep(keys, i, goals, profiles);
      assert userId in keys;
      var userGoals := groups[userId];
      if !HasAddress(profiles, userId) {
        i := i + 1;
        continue;
      }
      var userEmail := profiles[userId].email.value;
      var body := BuildEmailBody(userGoals);
      var mail := Email(Sender, userEmail, Subject, body);
      attempted := attempted + [mail];
      if userEmail !in failingAddresses {
        delivered := delivered + [mail];
      }
      i := i + 1;
    }
    assert keys[..i] == keys;
    response := Notified;
  }
}
