# Node offline notification: the notification policy

This project models the email notification policy of the Jenkins node-offline-notification
plugin, the `EmailComputerListener` class. Jenkins calls the listener when a computer (a worker
node, or the master, whose name is empty) comes online or goes offline. The listener decides
whether the event owes any email. It finds the recipients in the node's `EmailNodeProperty`,
chooses a subject and body, and attempts one send per recipient address.

The model has three modules:

- `JavaString` (`java_string.dfy`) gives the semantics of Java's `String.split(" ")`, which
  turns the configured string into addresses. If the separator does not occur, the result is
  the input itself as the only element, so `""` gives `[""]`. Otherwise the input is cut at
  every space. Leading and interior empty entries are kept, and trailing ones are dropped.
  `Fields` is the cut before trimming. `Join` puts the spaces back, and the two are proved
  inverse in both directions.
- `Policy` (`policy.dfy`) works on values. Jenkins' state is an immutable snapshot: each
  computer has a name, an offline flag and a list of node properties, and the email property is
  one variant of `NodeProperty`. The environment expansion and the administrator address are a
  `Config` value. `NotifyPlan`, `OnlinePlan` and `OfflinePlan` give the ordered messages an
  event owes, each with exactly one TO address, and the lemmas state the counts, subjects,
  senders and recipients.
- `Listener` (`listener.dfy`) is the listener as a class whose `log` field records every send
  attempt and its outcome. The methods follow the source's loops: the early-return property
  search, the per-address send loop, and the master's scan over the snapshot. The property
  search is proved to return `EmailProperty`. The send loop and the master's scan are proved to
  append exactly the planned messages to the log, in order. The transport's outcome
  is left open (`delivered := *`), so the proof covers every pattern of delivery failures. A
  failed send neither stops the later sends nor reaches the caller.

The master branch is modelled as the code is written. For every offline computer in the
snapshot, `onOnline` calls `startUpNotification(c)`, where `c` is the master itself. So the
master's own recipients get one "The master has been restarted." message per offline computer.
The offline computers' configured addresses are never used (`Policy.MasterOnline`,
`Policy.RestartPlanRepeats`).

The message bodies contain the literal text `#{name}`. The node name is passed to `sendEmail`
but is never substituted, and the model keeps the bodies as written, including the spelling
"recieve".

## Model

| member | source | states |
|---|---|---|
| `JavaString.Split` | src/main/java/org/jenkinsci/plugins/nodeofflinenotification/EmailComputerListener.java:91 | `split(" ")`: a string without a space is its own single entry; otherwise the result is the list of space-separated fields with the trailing empty ones dropped. No entry contains a space, and the last entry is non-empty |
| `JavaString.TrimTrailingEmpty` | src/main/java/org/jenkinsci/plugins/nodeofflinenotification/EmailComputerListener.java:91 | the result is a prefix of the fields, everything dropped is empty, and the result does not end with an empty entry |
| `JavaString.JoinFields` | src/main/java/org/jenkinsci/plugins/nodeofflinenotification/EmailComputerListener.java:91 | cutting at every space loses nothing: joining the fields with spaces gives back the input |
| `JavaString.FieldsJoin` | src/main/java/org/jenkinsci/plugins/nodeofflinenotification/EmailComputerListener.java:91 | the reverse round trip: fields free of spaces are recovered by cutting their join |
| `JavaString.SplitLosesOnlyTrailingSeparators` | src/main/java/org/jenkinsci/plugins/nodeofflinenotification/EmailComputerListener.java:91 | for every input, it is the join of the split result plus the dropped empty fields, so only trailing spaces are lost |
| `JavaString.SplitTwoAddresses` | src/main/java/org/jenkinsci/plugins/nodeofflinenotification/EmailComputerListener.java:91 | `"a@x.com b@y.com"` splits into `["a@x.com", "b@y.com"]`, in that order |
| `JavaString.SplitKeepsInteriorEmpty` | src/main/java/org/jenkinsci/plugins/nodeofflinenotification/EmailComputerListener.java:91 | two consecutive spaces leave an empty entry in the middle |
| `JavaString.SplitKeepsLeadingEmpty` | src/main/java/org/jenkinsci/plugins/nodeofflinenotification/EmailComputerListener.java:91 | a leading space leaves an empty first entry |
| `JavaString.SplitDropsTrailingEmpty` | src/main/java/org/jenkinsci/plugins/nodeofflinenotification/EmailComputerListener.java:91 | a trailing space is dropped, and a lone space splits into no entries |
| `Policy.EmailProperty` | src/main/java/org/jenkinsci/plugins/nodeofflinenotification/EmailComputerListener.java:94-98 | the value is the email of the first `EmailNodeProperty` in property order, or `""` when the node has none |
| `Policy.EmailPropertyDetermined` | src/main/java/org/jenkinsci/plugins/nodeofflinenotification/EmailComputerListener.java:94-98 | those two conditions fix the value uniquely, so the search method and the function agree |
| `Policy.FirstEmailPropertyWins` | src/main/java/org/jenkinsci/plugins/nodeofflinenotification/EmailComputerListener.java:95-96 | after any non-email properties, the first email property is chosen whatever follows it |
| `Policy.Recipients` | src/main/java/org/jenkinsci/plugins/nodeofflinenotification/EmailComputerListener.java:84-91 | a node without an email property has no recipients, and no resolved address contains a space |
| `Policy.EmptyPropertyIgnoresExpansion` | src/main/java/org/jenkinsci/plugins/nodeofflinenotification/EmailComputerListener.java:88 | an empty or missing property gives zero recipients under any environment expansion, so the expansion is not consulted |
| `Policy.AddressList` | src/main/java/org/jenkinsci/plugins/nodeofflinenotification/EmailComputerListener.java:88-91 | `updateEmailAddresses` after the lookup: an empty value gives no addresses and the expansion is not applied; otherwise the expansion split on single spaces, so no address contains a space and a space-free expansion is the only address |
| `Policy.RecipientsAreSplitExpansion` | src/main/java/org/jenkinsci/plugins/nodeofflinenotification/EmailComputerListener.java:88-91 | a non-empty property is expanded first and the recipients are exactly `split(" ")` of the expansion, so `JavaString.Split`'s contract carries over: order kept, no dedup, leading and interior empty entries kept, trailing ones dropped, a space-free expansion as its only entry |
| `Policy.RecipientsOfTwoAddresses` | src/main/java/org/jenkinsci/plugins/nodeofflinenotification/EmailComputerListener.java:84-91 | a node configured with `"a@x.com b@y.com"`, with no environment references, resolves to exactly those two addresses in order |
| `Policy.SelectMessage` | src/main/java/org/jenkinsci/plugins/nodeofflinenotification/EmailComputerListener.java:105-117 | every body contains the literal placeholder `#{name}`; the node name is not an input |
| `Policy.SelectionDistinguishesEvents` | src/main/java/org/jenkinsci/plugins/nodeofflinenotification/EmailComputerListener.java:105-117 | two flag pairs give the same message exactly when both have `masterStart` set, or neither does and their `onlineCalled` agree: `masterStart` overrides `onlineCalled`, and the three events are told apart |
| `Policy.Mails` | src/main/java/org/jenkinsci/plugins/nodeofflinenotification/EmailComputerListener.java:73-82 | one message per address, in address order, each with that address as its only TO recipient and the administrator address as From |
| `Policy.NotifyPlan` | src/main/java/org/jenkinsci/plugins/nodeofflinenotification/EmailComputerListener.java:73-82 | `notifyResponsible`: one message per recipient of the node, in recipient order, each TO that recipient, From the administrator address, with the subject and body chosen by the two flags |
| `Policy.RestartPlan` | src/main/java/org/jenkinsci/plugins/nodeofflinenotification/EmailComputerListener.java:42-46 | the master's scan: every message is one of the master's own restart notifications, and a snapshot with no offline computer gives none |
| `Policy.OnlinePlan` | src/main/java/org/jenkinsci/plugins/nodeofflinenotification/EmailComputerListener.java:37-51 | `onOnline`: a worker gets its back-online plan; for the master every message is a restart notice from the administrator address, and there are none when nothing is offline |
| `Policy.OfflinePlan` | src/main/java/org/jenkinsci/plugins/nodeofflinenotification/EmailComputerListener.java:54-58 | `onOffline`: nothing without a cause; with a cause, one "Slave Connection lost" message per recipient, from the administrator address |
| `Policy.RepeatShape` | src/main/java/org/jenkinsci/plugins/nodeofflinenotification/EmailComputerListener.java:42-46 | k repetitions of a plan have k times its length and hold only its messages |
| `Policy.RestartPlanRepeats` | src/main/java/org/jenkinsci/plugins/nodeofflinenotification/EmailComputerListener.java:42-46 | the master's scan is the master's own restart notification repeated once per offline computer, whatever the offline computers are configured with |
| `Policy.OfflineWithoutCauseSendsNothing` | src/main/java/org/jenkinsci/plugins/nodeofflinenotification/EmailComputerListener.java:54-58 | an offline event with a null cause produces no send attempts |
| `Policy.OfflineWithCause` | src/main/java/org/jenkinsci/plugins/nodeofflinenotification/EmailComputerListener.java:54-61 | with a cause, there is exactly one attempt per resolved address of the node, in order, each "Slave Connection lost" from the administrator address |
| `Policy.WorkerOnline` | src/main/java/org/jenkinsci/plugins/nodeofflinenotification/EmailComputerListener.java:47-48 | a non-master node coming online gets exactly one "Slave back online" attempt per resolved address of its own, in order |
| `Policy.MasterOnline` | src/main/java/org/jenkinsci/plugins/nodeofflinenotification/EmailComputerListener.java:40-46 | the master coming online makes (offline computers) × (master recipients) attempts, all "The master has been restarted.", all addressed to the master's own recipients, and none when nothing is offline |
| `Policy.MasterOnlineNoneOffline` | src/main/java/org/jenkinsci/plugins/nodeofflinenotification/EmailComputerListener.java:42-43 | a snapshot in which no computer is offline makes a master online event send nothing |
| `Listener.EmailComputerListener.constructor` | src/main/java/org/jenkinsci/plugins/nodeofflinenotification/EmailComputerListener.java:34 | the listener starts with the injected configuration and an empty send log |
| `Listener.EmailComputerListener.GetEmailNodeProperty` | src/main/java/org/jenkinsci/plugins/nodeofflinenotification/EmailComputerListener.java:94-99 | the early-return search returns the first email property's value, or `""` when there is none |
| `Listener.EmailComputerListener.SendEmail` | src/main/java/org/jenkinsci/plugins/nodeofflinenotification/EmailComputerListener.java:101-122 | appends exactly one attempt whose message is From the administrator address, TO only this address, with the selected subject and body; the outcome is arbitrary |
| `Listener.EmailComputerListener.NotifyResponsible` | src/main/java/org/jenkinsci/plugins/nodeofflinenotification/EmailComputerListener.java:73-82 | earlier log entries are kept, and the attempts appended are exactly the plan for the node's recipients: each address once, in list order, whatever the delivery outcomes |
| `Listener.EmailComputerListener.OnOnline` | src/main/java/org/jenkinsci/plugins/nodeofflinenotification/EmailComputerListener.java:37-51 | appends exactly the online plan: for the master, one restart notification per offline computer in snapshot order; for a worker, its back-online notification |
| `Listener.EmailComputerListener.OnOffline` | src/main/java/org/jenkinsci/plugins/nodeofflinenotification/EmailComputerListener.java:54-58 | appends exactly the offline plan: nothing without a cause, the connection-lost notification with one |

## Left out

- JavaMail (`Session`, `MimeMessage`, `InternetAddress`, `Transport.send`) is not modelled. A send is an appended log entry with an arbitrary delivered/failed outcome. An address that `InternetAddress` rejects falls under that failed outcome too, since it also raises a `MessagingException` that the loop catches.
- `mailer.createSession()` and the Guice injection of `Mailer.DescriptorImpl` are host wiring. The configuration is passed to the constructor instead.
- `EnvVars.masterEnvVars` and `EnvVars.expand` are a parameter, `Config.expand`: an arbitrary total function from string to string. The variable syntax and expansion rules are not modelled.
- `Jenkins.getInstance().getComputers()`, `Computer.isOffline()` and `getNode().getNodeProperties()` become the snapshot passed to `OnOnline` and the fields of `Computer`. A computer whose `getNode()` is null, which would raise a NullPointerException in the source, is not represented.
- `JenkinsLocationConfiguration.get().getAdminAddress()` is the string `Config.adminAddress`. A missing (null) administrator address is not represented.
- `Listener.EmailComputerListener.config`: the administrator address is fixed for the listener's lifetime. The source reads `getAdminAddress()` again on every send, so a change there takes effect at the next send; the model does not capture such a change.
- `EmailNodeProperty.java` is a data holder and a UI descriptor. It is the `EmailNodeProperty` variant of `NodeProperty`, and its display name is not modelled.
- The warning written by `LOGGER.log`, the unused `TaskListener` argument and Jenkins' concurrent event dispatch are outside the policy. Each event is modelled as one sequential call.
