/**
  EmailComputerListener as an object. Each send attempt is appended to a log
  together with its outcome. The transport's outcome is not known in advance:
  a delivery may fail, as Transport.send does with a MessagingException. A
  failure is recorded, and the loop goes on to the next address.
 */
module Listener {
  import opened Policy

  /** One call of the transport: the message handed over and whether it was delivered. */
  datatype Attempt = Attempt(message: Message, delivered: bool)

  /** The messages of a log, in attempt order, without their outcomes. */
  function Messages(log: seq<Attempt>): seq<Message>
  {
    seq(|log|, i requires 0 <= i < |log| => log[i].message)
  }

  lemma MessagesAppend(log: seq<Attempt>, a: Attempt)
    ensures Messages(log + [a]) == Messages(log) + [a.message]
  {
    assert forall i | 0 <= i < |log| + 1 :: Messages(log + [a])[i] == (Messages(log) + [a.message])[i];
  }

  /** Appending the next planned message keeps the log's messages equal to a prefix of the plan. */
  lemma AppendPlanned(start: seq<Attempt>, before: seq<Attempt>, plan: seq<Message>, k: nat, delivered: bool)
    requires k < |plan|
    requires Messages(before) == Messages(start) + plan[..k]
    ensures Messages(before + [Attempt(plan[k], delivered)]) == Messages(start) + plan[..k + 1]
  {
    MessagesAppend(before, Attempt(plan[k], delivered));
    assert plan[..k + 1] == plan[..k] + [plan[k]];
  }

  /** Moving the next chunk of the remaining plan into the log keeps log + remaining plan fixed. */
  lemma ShiftChunk(logged: seq<Message>, chunk: seq<Message>, rest: seq<Message>, total: seq<Message>)
    requires logged + (chunk + rest) == total
    ensures (logged + chunk) + rest == total
  {
  }

  class EmailComputerListener {
    /** The host configuration: environment expansion and administrator address. */
    const config: Config
    /** Every send attempt made so far, oldest first. */
    var log: seq<Attempt>

    constructor (config: Config)
      ensures this.config == config && log == []
    {
      this.config := config;
      log := [];
    }

    /** Builds the message for one address and hands it to the transport. The node
        name is accepted but not used: the body keeps the literal placeholder. */
    method SendEmail(email: string, name: string, onlineCalled: bool, masterStart: bool) returns (delivered: bool)
      modifies this
      ensures var content := SelectMessage(onlineCalled, masterStart);
              log == old(log) + [Attempt(Message(config.adminAddress, email, content.subject, content.body), delivered)]
    {
      var content := SelectMessage(onlineCalled, masterStart);
      var msg := Message(config.adminAddress, email, content.subject, content.body);
      delivered := *;
      log := log + [Attempt(msg, delivered)];
    }

    /** The configured string of the first email property of `c`, or "" if it has none. */
    method GetEmailNodeProperty(c: Computer) returns (email: string)
      ensures !HasEmailProperty(c.properties) ==> email == ""
      ensures forall i | IsFirstEmailProperty(c.properties, i) :: email == c.properties[i].email
    {
      var props := c.properties;
      var k := 0;
      while k < |props|
        invariant 0 <= k <= |props|
        invariant forall j | 0 <= j < k :: !props[j].EmailNodeProperty?
      {
        if props[k].EmailNodeProperty? {
          assert forall i | IsFirstEmailProperty(props, i) :: i == k;
          return props[k].email;
        }
        k := k + 1;
      }
      return "";
    }

    /** Sends the chosen message to every recipient of `c`, one attempt per address in order.
        A failed attempt (a MessagingException in the source) is only logged as a warning:
        it does not stop the attempts after it and is not reported to the caller. */
    method NotifyResponsible(c: Computer, onlineCalled: bool, masterStart: bool)
      modifies this
      ensures old(log) <= log
      ensures Messages(log) == Messages(old(log)) + NotifyPlan(c, onlineCalled, masterStart, config)
    {
      var prop := GetEmailNodeProperty(c);
      EmailPropertyDetermined(c.properties, prop);
      var emails := AddressList(prop, config.expand);
      ghost var content := SelectMessage(onlineCalled, masterStart);
      ghost var plan := Mails(emails, config.adminAddress, content);
      assert plan == NotifyPlan(c, onlineCalled, masterStart, config);
      ghost var start := log;
      var k := 0;
      while k < |emails|
        invariant 0 <= k <= |emails|
        invariant start <= log
        invariant Messages(log) == Messages(start) + plan[..k]
      {
        ghost var before := log;
        var delivered := SendEmail(emails[k], c.name, onlineCalled, masterStart);
        assert log == before + [Attempt(plan[k], delivered)];
        AppendPlanned(start, before, plan, k, delivered);
        k := k + 1;
      }
      assert plan[..k] == plan;
    }

    /** A node came online. For the master, one restart notification to the master's own
        recipients per offline computer in the snapshot; for a worker, one back-online notification. */
    method OnOnline(c: Computer, computers: seq<Computer>)
      modifies this
      ensures old(log) <= log
      ensures Messages(log) == Messages(old(log)) + OnlinePlan(c, computers, config)
    {
      if IsMaster(c) {
        ghost var start := log;
        var k := 0;
        while k < |computers|
          invariant 0 <= k <= |computers|
          invariant start <= log
          invariant Messages(log) + RestartPlan(c, computers[k..], config)
                    == Messages(start) + RestartPlan(c, computers, config)
        {
          RestartPlanStep(c, computers, k, config);
          ghost var chunk := if computers[k].offline then NotifyPlan(c, true, true, config) else [];
          ghost var before := Messages(log);
          if computers[k].offline {
            NotifyResponsible(c, true, true);
          }
          assert Messages(log) == before + chunk;
          ShiftChunk(before, chunk, RestartPlan(c, computers[k + 1..], config),
                     Messages(start) + RestartPlan(c, computers, config));
          k := k + 1;
        }
        assert computers[k..] == [];
      } else {
        NotifyResponsible(c, true, false);
      }
    }

    /** A node went offline. Only a disconnection with a cause is reported. */
    method OnOffline(c: Computer, cause: Option<OfflineCause>)
      modifies this
      ensures old(log) <= log
      ensures Messages(log) == Messages(old(log)) + OfflinePlan(c, cause, config)
    {
      if cause.Some? {
        NotifyResponsible(c, false, false);
      }
    }
  }
}
