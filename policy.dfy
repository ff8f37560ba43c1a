/**
  The notification policy of EmailComputerListener, on values: which messages
  one node event owes, to whom, and with what subject and body.

  The host's state is an immutable snapshot: a computer is its name, its
  offline flag and its list of node properties. The environment expansion and
  the administrator address come in as a Config value.
 */
module Policy {
  import opened JavaString

  datatype Option<T> = None | Some(value: T)

  /** A node property. The email property carries its configured string; every other kind is opaque. */
  datatype NodeProperty = EmailNodeProperty(email: string) | OtherNodeProperty(kind: string)

  datatype Computer = Computer(name: string, offline: bool, properties: seq<NodeProperty>)

  /** Why a node went offline. Only whether a cause is present matters here. */
  datatype OfflineCause = OfflineCause(description: string)

  /** Settings the host supplies: the global environment expansion and the administrator "from" address. */
  datatype Config = Config(expand: string -> string, adminAddress: string)

  /** One email: a single TO recipient, the From address, the subject and the text. */
  datatype Message = Message(from: string, to: string, subject: string, body: string)

  datatype Content = Content(subject: string, body: string)

  const MasterRestartedSubject := "The master has been restarted."
  const BackOnlineSubject := "Slave back online"
  const ConnectionLostSubject := "Slave Connection lost"

  /** The placeholder that the bodies carry literally; nothing ever substitutes the node name for it. */
  const NamePlaceholder := "#{name}"

  // Each body is written as the text before the placeholder, the placeholder, and the text after it.
  const MasterRestartedLead := "The master was restarted and the node ("
  const SlaveLead := "The connection to the slave ("
  const MasterRestartedBody := MasterRestartedLead + NamePlaceholder + ") is offline. If you don't recieve an online message it is probably offline still."
  const BackOnlineBody := SlaveLead + NamePlaceholder + ") was restored."
  const ConnectionLostBody := SlaveLead + NamePlaceholder + ") you are responsible for, has been lost."

  predicate ContainsAt(s: string, t: string, i: nat)
  {
    i + |t| <= |s| && s[i..i + |t|] == t
  }

  /** `body` contains the literal placeholder somewhere. */
  ghost predicate HasNamePlaceholder(body: string)
  {
    exists i: nat :: ContainsAt(body, NamePlaceholder, i)
  }

  /** The master is the computer whose name is empty. */
  predicate IsMaster(c: Computer)
  {
    c.name == ""
  }

  // ---------------------------------------------------------------------
  // Recipient resolution
  // ---------------------------------------------------------------------

  /** Index `i` holds the first email property of `props`. */
  predicate IsFirstEmailProperty(props: seq<NodeProperty>, i: int)
  {
    0 <= i < |props| && props[i].EmailNodeProperty? &&
    forall j | 0 <= j < i :: !props[j].EmailNodeProperty?
  }

  predicate HasEmailProperty(props: seq<NodeProperty>)
  {
    exists i | 0 <= i < |props| :: props[i].EmailNodeProperty?
  }

  /** The configured string of the first email property, or "" when there is none. */
  function EmailProperty(props: seq<NodeProperty>): (r: string)
    ensures !HasEmailProperty(props) ==> r == ""
    ensures forall i | IsFirstEmailProperty(props, i) :: r == props[i].email
    decreases |props|
  {
    if |props| == 0 then ""
    else if props[0].EmailNodeProperty? then props[0].email
    else
      var r := EmailProperty(props[1..]);
      assert forall i | IsFirstEmailProperty(props, i) :: IsFirstEmailProperty(props[1..], i - 1);
      assert HasEmailProperty(props[1..]) ==> HasEmailProperty(props);
      r
  }

  /** An email property exists exactly when some index is the first one. */
  lemma {:induction false} FirstEmailPropertyExists(props: seq<NodeProperty>)
    requires HasEmailProperty(props)
    ensures exists i :: IsFirstEmailProperty(props, i)
    decreases |props|
  {
    if props[0].EmailNodeProperty? {
      assert IsFirstEmailProperty(props, 0);
    } else {
      var k :| 0 <= k < |props| && props[k].EmailNodeProperty?;
      assert props[1..][k - 1].EmailNodeProperty?;
      FirstEmailPropertyExists(props[1..]);
      var i :| IsFirstEmailProperty(props[1..], i);
      assert IsFirstEmailProperty(props, i + 1);
    }
  }

  /** The two postconditions of EmailProperty determine its value: any string meeting them is it. */
  lemma EmailPropertyDetermined(props: seq<NodeProperty>, e: string)
    requires !HasEmailProperty(props) ==> e == ""
    requires forall i | IsFirstEmailProperty(props, i) :: e == props[i].email
    ensures e == EmailProperty(props)
  {
    if HasEmailProperty(props) {
      FirstEmailPropertyExists(props);
    }
  }

  /** The address list made from a configured string: empty when the string is empty
      (the expansion is then not applied), otherwise the expansion split on single spaces. */
  function AddressList(prop: string, expand: string -> string): (r: seq<string>)
    ensures prop == "" ==> r == []
    ensures forall i | 0 <= i < |r| :: ' ' !in r[i]
    ensures prop != "" && ' ' !in expand(prop) ==> r == [expand(prop)]
  {
    if prop == "" then [] else Split(expand(prop), ' ')
  }

  /** The recipients of node `c`: the address list of its first email property. */
  function Recipients(c: Computer, expand: string -> string): (r: seq<string>)
    ensures !HasEmailProperty(c.properties) ==> r == []
    ensures forall i | 0 <= i < |r| :: ' ' !in r[i]
  {
    AddressList(EmailProperty(c.properties), expand)
  }

  /** An absent or empty email property yields no recipients whatever the environment holds. */
  lemma EmptyPropertyIgnoresExpansion(c: Computer, expand1: string -> string, expand2: string -> string)
    requires EmailProperty(c.properties) == ""
    ensures Recipients(c, expand1) == [] && Recipients(c, expand2) == []
  {
  }

  /** A non-empty property is expanded first and the expansion is then split on single spaces,
      so everything Split promises (order, no dedup, kept leading and interior empty entries,
      dropped trailing ones, a space-free expansion as its own single entry) holds of the recipients. */
  lemma RecipientsAreSplitExpansion(c: Computer, expand: string -> string)
    requires EmailProperty(c.properties) != ""
    ensures Recipients(c, expand) == Split(expand(EmailProperty(c.properties)), ' ')
  {
  }

  /** A node whose first email property lists two addresses, with no environment references. */
  lemma RecipientsOfTwoAddresses(c: Computer, expand: string -> string)
    requires |c.properties| >= 1 && c.properties[0] == EmailNodeProperty("a@x.com b@y.com")
    requires expand("a@x.com b@y.com") == "a@x.com b@y.com"
    ensures Recipients(c, expand) == ["a@x.com", "b@y.com"]
  {
    assert IsFirstEmailProperty(c.properties, 0);
    SplitTwoAddresses();
  }

  /** The first email property wins over later ones. */
  lemma {:induction false} FirstEmailPropertyWins(props: seq<NodeProperty>, others: seq<NodeProperty>, e: string)
    requires forall j | 0 <= j < |props| :: !props[j].EmailNodeProperty?
    ensures EmailProperty(props + [EmailNodeProperty(e)] + others) == e
  {
    var all := props + [EmailNodeProperty(e)] + others;
    assert IsFirstEmailProperty(all, |props|) by {
      forall j | 0 <= j < |props| ensures !all[j].EmailNodeProperty? {
        assert all[j] == props[j];
      }
    }
  }

  // ---------------------------------------------------------------------
  // Message selection
  // ---------------------------------------------------------------------

  /** Subject and body chosen by the two flags; masterStart takes precedence over onlineCalled. */
  function SelectMessage(onlineCalled: bool, masterStart: bool): (r: Content)
    ensures HasNamePlaceholder(r.body)
  {
    if masterStart then
      assert ContainsAt(MasterRestartedBody, NamePlaceholder, |MasterRestartedLead|);
      Content(MasterRestartedSubject, MasterRestartedBody)
    else if onlineCalled then
      assert ContainsAt(BackOnlineBody, NamePlaceholder, |SlaveLead|);
      Content(BackOnlineSubject, BackOnlineBody)
    else
      assert ContainsAt(ConnectionLostBody, NamePlaceholder, |SlaveLead|);
      Content(ConnectionLostSubject, ConnectionLostBody)
  }

  /** Two flag pairs give the same message exactly when they select the same event:
      both master restarts, or both worker events with the same direction. */
  lemma SelectionDistinguishesEvents(o1: bool, m1: bool, o2: bool, m2: bool)
    ensures SelectMessage(o1, m1) == SelectMessage(o2, m2) <==> m1 == m2 && (m1 || o1 == o2)
  {
    assert MasterRestartedSubject[0] != BackOnlineSubject[0];
    assert MasterRestartedSubject[0] != ConnectionLostSubject[0];
    assert BackOnlineSubject[6] != ConnectionLostSubject[6];
  }

  // ---------------------------------------------------------------------
  // Send plans: the ordered messages one event owes
  // ---------------------------------------------------------------------

  /** One message per address, in address order, each with that address as its only recipient. */
  function Mails(addresses: seq<string>, from: string, content: Content): (r: seq<Message>)
    ensures |r| == |addresses|
    ensures forall i | 0 <= i < |r| ::
              r[i] == Message(from, addresses[i], content.subject, content.body)
    decreases |addresses|
  {
    if |addresses| == 0 then []
    else [Message(from, addresses[0], content.subject, content.body)] + Mails(addresses[1..], from, content)
  }

  /** What notifyResponsible(c, onlineCalled, masterStart) attempts. */
  function NotifyPlan(c: Computer, onlineCalled: bool, masterStart: bool, cfg: Config): (r: seq<Message>)
    ensures |r| == |Recipients(c, cfg.expand)|
    ensures forall i | 0 <= i < |r| ::
              r[i].to == Recipients(c, cfg.expand)[i] && r[i].from == cfg.adminAddress &&
              r[i].subject == SelectMessage(onlineCalled, masterStart).subject &&
              r[i].body == SelectMessage(onlineCalled, masterStart).body
  {
    Mails(Recipients(c, cfg.expand), cfg.adminAddress, SelectMessage(onlineCalled, masterStart))
  }

  function CountOffline(computers: seq<Computer>): nat
    decreases |computers|
  {
    if |computers| == 0 then 0
    else (if computers[0].offline then 1 else 0) + CountOffline(computers[1..])
  }

  /** The master's scan: a restart notification for `master` per offline computer, in snapshot order. */
  function RestartPlan(master: Computer, computers: seq<Computer>, cfg: Config): (r: seq<Message>)
    ensures CountOffline(computers) == 0 ==> r == []
    ensures forall m | m in r :: m in NotifyPlan(master, true, true, cfg)
    decreases |computers|
  {
    if |computers| == 0 then []
    else
      (if computers[0].offline then NotifyPlan(master, true, true, cfg) else [])
      + RestartPlan(master, computers[1..], cfg)
  }

  /** One step of the master's scan: the computer at `k` contributes its notification, then the rest follows. */
  lemma RestartPlanStep(master: Computer, computers: seq<Computer>, k: nat, cfg: Config)
    requires k < |computers|
    ensures RestartPlan(master, computers[k..], cfg)
            == (if computers[k].offline then NotifyPlan(master, true, true, cfg) else [])
               + RestartPlan(master, computers[k + 1..], cfg)
  {
    assert computers[k..][1..] == computers[k + 1..];
  }

  /** What onOnline(c) attempts, given the snapshot of all computers. */
  function OnlinePlan(c: Computer, computers: seq<Computer>, cfg: Config): (r: seq<Message>)
    ensures !IsMaster(c) ==> r == NotifyPlan(c, true, false, cfg)
    ensures IsMaster(c) ==> forall m | m in r :: m.subject == MasterRestartedSubject && m.from == cfg.adminAddress
    ensures IsMaster(c) && CountOffline(computers) == 0 ==> r == []
  {
    if IsMaster(c) then RestartPlan(c, computers, cfg) else NotifyPlan(c, true, false, cfg)
  }

  /** What onOffline(c, cause) attempts. */
  function OfflinePlan(c: Computer, cause: Option<OfflineCause>, cfg: Config): (r: seq<Message>)
    ensures cause.None? ==> r == []
    ensures cause.Some? ==> |r| == |Recipients(c, cfg.expand)|
    ensures cause.Some? ==> forall m | m in r :: m.subject == ConnectionLostSubject && m.from == cfg.adminAddress
  {
    if cause.Some? then NotifyPlan(c, false, false, cfg) else []
  }

  /** `k` copies of `p` one after the other. */
  function Repeat(p: seq<Message>, k: nat): seq<Message>
    decreases k
  {
    if k == 0 then [] else p + Repeat(p, k - 1)
  }

  lemma {:induction false} RepeatShape(p: seq<Message>, k: nat)
    ensures |Repeat(p, k)| == k * |p|
    ensures forall m | m in Repeat(p, k) :: m in p
    decreases k
  {
    if k > 0 {
      RepeatShape(p, k - 1);
      assert k * |p| == |p| + (k - 1) * |p|;
    }
  }

  /** The master's scan sends its own notification once per offline computer, whatever
      those computers have configured. */
  lemma {:induction false} RestartPlanRepeats(master: Computer, computers: seq<Computer>, cfg: Config)
    ensures RestartPlan(master, computers, cfg) == Repeat(NotifyPlan(master, true, true, cfg), CountOffline(computers))
    decreases |computers|
  {
    if |computers| > 0 {
      RestartPlanRepeats(master, computers[1..], cfg);
    }
  }

  // ---------------------------------------------------------------------
  // The event-level properties
  // ---------------------------------------------------------------------

  /** An offline event without a cause sends nothing. */
  lemma OfflineWithoutCauseSendsNothing(c: Computer, cfg: Config)
    ensures OfflinePlan(c, None, cfg) == []
  {
  }

  /** An offline event with a cause sends "Slave Connection lost" once to each recipient of the node, in order. */
  lemma OfflineWithCause(c: Computer, cause: OfflineCause, cfg: Config)
    ensures var plan := OfflinePlan(c, Some(cause), cfg);
            var rs := Recipients(c, cfg.expand);
            |plan| == |rs| &&
            forall i | 0 <= i < |plan| ::
              plan[i].to == rs[i] && plan[i].from == cfg.adminAddress &&
              plan[i].subject == ConnectionLostSubject && plan[i].body == ConnectionLostBody
  {
  }

  /** A worker coming online sends "Slave back online" once to each of its own recipients, in order. */
  lemma WorkerOnline(c: Computer, computers: seq<Computer>, cfg: Config)
    requires !IsMaster(c)
    ensures var plan := OnlinePlan(c, computers, cfg);
            var rs := Recipients(c, cfg.expand);
            |plan| == |rs| &&
            forall i | 0 <= i < |plan| ::
              plan[i].to == rs[i] && plan[i].from == cfg.adminAddress &&
              plan[i].subject == BackOnlineSubject && plan[i].body == BackOnlineBody
  {
  }

  /** The master coming online sends (number of offline computers) x (number of master recipients)
      restart messages, every one addressed to a recipient of the master itself. */
  lemma MasterOnline(master: Computer, computers: seq<Computer>, cfg: Config)
    requires IsMaster(master)
    ensures var plan := OnlinePlan(master, computers, cfg);
            var rs := Recipients(master, cfg.expand);
            |plan| == CountOffline(computers) * |rs| &&
            (CountOffline(computers) == 0 ==> plan == []) &&
            forall m | m in plan ::
              m.to in rs && m.from == cfg.adminAddress &&
              m.subject == MasterRestartedSubject && m.body == MasterRestartedBody
  {
    var p := NotifyPlan(master, true, true, cfg);
    RestartPlanRepeats(master, computers, cfg);
    RepeatShape(p, CountOffline(computers));
    forall m | m in p
      ensures m.to in Recipients(master, cfg.expand) && m.from == cfg.adminAddress &&
              m.subject == MasterRestartedSubject && m.body == MasterRestartedBody
    {
      var i :| 0 <= i < |p| && p[i] == m;
    }
  }

  /** A snapshot with no offline computer makes a master online event send nothing. */
  lemma MasterOnlineNoneOffline(master: Computer, computers: seq<Computer>, cfg: Config)
    requires IsMaster(master)
    requires forall i | 0 <= i < |computers| :: !computers[i].offline
    ensures OnlinePlan(master, computers, cfg) == []
  {
    NoOfflineCountsZero(computers);
    MasterOnline(master, computers, cfg);
  }

  lemma {:induction false} NoOfflineCountsZero(computers: seq<Computer>)
    requires forall i | 0 <= i < |computers| :: !computers[i].offline
    ensures CountOffline(computers) == 0
    decreases |computers|
  {
    if |computers| > 0 {
      assert forall i | 0 <= i < |computers[1..]| :: computers[1..][i] == computers[i + 1];
      NoOfflineCountsZero(computers[1..]);
    }
  }
}
