# sippak: a verified model of its own decisions

sippak is a SIP command-line client built on PJSIP. This project models the decisions sippak
makes itself, treats the library as an environment with stated contracts, and proves what those
decisions add up to over all inputs, all command lines and all runs.

| file | part of sippak | main results |
|---|---|---|
| `pjlib.dfy`, `lists.dfy`, `decimal.dfy` | the library calls and the `pj_strtok` loop shared by three options | the loop visits exactly the non-empty fields; writing and reading lists and numbers are inverse |
| `dns.dfy` | `--ns` | round trip of nameserver lists; which ports survive |
| `codecs.dfy` | `--codec` | the selection is the deduplicated list; the count 12 is free to mean "all"; accepted lists are usable |
| `keywords.dfy` | command words | one word at most starts any text; the order of tests is irrelevant |
| `event_loop.dfy`, `retry.dfy` | the main loop and `ping.c` (also `notify.c`, `message.c`, `refer.c`) | at most two requests; exactly when the retry goes out before the loop is left; exactly when the loop never stops |
| `challenges.dfy` | `publish.c`, `subscribe.c` | closed form of the wrapping counter; exactly when a whole run stops and which polls are handled; exactly when the two commands treat a run alike |
| `invite.dfy` | `invite.c` | CANCEL and BYE in any run and over the whole life of a session, challenges and crossing included; every message made is sent; exactly when the BYE goes out before the loop is left |
| `options.dfy`, `settings.dfy`, `command_line.dfy` | `getopts.c` | what a whole command line configures, setting by setting; exactly when it is accepted, how it is refused, and when it stays inside the arrays |
| `requests.dfy` | `sip_helper.c`, `sip_mangler.c` | headers merged into requests, over retransmissions and repeats, and traced to the options; routes |
| `notify.dfy` | `notify.c` | the Event header from the command line; exactly when the message tells the summary asked for |

State that sippak updates in place is a class here (`Codecs.MediaConfig`, `Retry.Client`,
`Challenges.Publisher`, `Challenges.Subscriber`, `Invite.Driver`, `Options.App`,
`Requests.TxData`) whose methods have sippak's branches and loops and are proved against
functions; the laws are then lemmas about those functions.

The environment is: polls that deliver arbitrary finite batches of events; a flag on each event
saying how the library call made in reaction to it went; partial functions for parsing and
printing URIs and routes; and a header name comparison assumed only to be an equivalence. Of
sessions the model assumes nothing, except where a lemma says that a confirmed session can only
be disconnected. A command line on which the code writes outside an array has the outcome
`Overrun`, and nothing is claimed beyond it.

## Where the code differs from what is written about it

- The help text allows 12 custom headers and 12 proxies, and says what happens to more; the arrays
  have 12 slots (src/include/sippak.h.in:174,179). The guards compare with `>`
  (src/app/getopts.c:160,206), so a thirteenth is written past its array.
  `CommandLine.CommandLineWithinArrays` says exactly which command lines stay inside;
  `Settings.ThirteenHeaders` and `Settings.ThirteenProxies` are two that do not.
- The default codec list is g711 whatever the build contains; `Settings.CodecsInForce` gives the
  exact condition under which the codecs in force cannot be registered, and
  `Settings.DefaultNotInBuild` a build where they cannot.
- The name g722.1 is tested after g722, so asking for it selects g722
  (`Codecs.AskingForG7221`).
- PUBLISH counts every response, so a provisional response before a challenge makes it give up
  without trying the credentials, which SUBSCRIBE does not (`Challenges.AgreeIff`, and
  `Challenges.ProvisionalFirst` for the shortest run).
- In ping and its copies a provisional response stops the loop too; the retry goes out only if
  the challenge is handled in the same poll or an earlier one (`Retry.RetryBeforeLeaving`,
  `Retry.ProvisionalEndsPing`).
- A 487 stops INVITE at once, so a session confirmed in a later poll gets no BYE
  (`Invite.ByeBeforeLeaving`, `Invite.ConfirmedTooLate`).
- A nameserver port outside 1..65535 is accepted and stored as another number
  (`Nameservers.PortKept`; `Nameservers.PortsChanged` for 65536 and -1).
- The MWI body is handed on with the length of the whole text even when the 2048-byte buffer
  holds less of it (`Notify.AddMwiBody`; `Notify.LongAccount` for command lines where it does,
  and `Notify.SummarySent` for the exact condition under which the counts still arrive).

## Model

| member | source | states |
|---|---|---|
| Lists.NextField | src/app/dns.c:78-82 | a `pj_strtok` call at any position finds the next field of the rest of the text, so the loop visits every non-empty field once, left to right |
| Lists.FieldsCover | src/app/dns.c:78-82 | fields are non-empty and free of the delimiter, and together are the text without its delimiters |
| Lists.FieldsOfJoin | src/app/getopts.c:311-318 | a written list reads back as its fields |
| Decimal.ReadPrinted | src/app/dns.c:48-51 | a printed `int` is read back, sign included, whatever non-digit follows |
| Nameservers.GetServerIp | src/app/dns.c:55-66 | the loop returns the text before the first colon |
| Nameservers.StoreServer | src/app/dns.c:88-89 | host and 16-bit port of one server are written at one index, nothing else changes |
| Nameservers.ServerMeaning | src/app/dns.c:33-66 | any server text: the host is what stands before the first colon, the port that of the second non-empty part between colons, 53 without one |
| Nameservers.ParseNameserversString | src/app/dns.c:68-94 | the arrays hold the first three servers in order, past them what they held before, and the count says how many |
| Nameservers.RoundTrip | src/app/dns.c:33-94 | any list in the documented form parses to its first three servers, ports included |
| Nameservers.PortText | src/app/dns.c:33-52 | for any text after the host, the stored port is that of the number read there: 53 for 0, else its low 16 bits |
| Nameservers.PortOf | src/app/dns.c:48-51 | the stored port of "host:v" for every number v, negative ones included |
| Nameservers.PortKept | src/app/dns.c:48-51 | a written port is stored unchanged if and only if it is in 1..65535 |
| Nameservers.PortsChanged | src/app/dns.c:89 | 65536 is stored as 0 and -1 as 65535 |
| Nameservers.DefaultPort | src/app/dns.c:37-46 | no port, an empty one, or text that starts with neither digit nor sign gives 53 |
| Codecs.MaskIsMembership | src/app/media_helper.c:190-231 | the one-hot bit test equals membership in the build's codecs, and is false for "all" |
| Codecs.Overlap | src/app/media_helper.c:57-88 | only g722 and g722.1 can both start the same text |
| Codecs.ParseMeaning | src/app/media_helper.c:57-88 | the chain returns a codec if and only if its name starts the text and it is not g722.1 |
| Codecs.CodecNames | src/app/media_helper.c:57-88 | the twelve names that select a codec or "all", letter by letter, capitals or not |
| Codecs.AskingForG7221 | src/app/media_helper.c:67-72 | a text starting with g722.1 selects g722 |
| Codecs.SelectMeaning | src/app/media_helper.c:250-258 | when a list is taken as codecs, as "all", or refused, in terms of its fields |
| Codecs.ListedCodecs | src/app/media_helper.c:250-263 | the codecs of an accepted list are those whose names start its fields |
| Codecs.NoRepeats | src/app/media_helper.c:259-263 | the stored codecs are distinct and are those of the list |
| Codecs.KeepsOrder | src/app/media_helper.c:259-263 | the stored codecs are in order of first occurrence |
| Codecs.SentinelFree | src/app/media_helper.c:233-268 | an explicit list has fewer than 12 codecs, distinct and all in the build, so the count 12 means "all" only |
| Codecs.MediaConfig.IsCodecSet | src/app/media_helper.c:90-98 | the search finds a codec if and only if it is among the first n entries |
| Codecs.MediaConfig.SetMediaCodecsCfg | src/app/media_helper.c:233-269 | success if and only if the list is not refused; the stored selection is the one asked for whatever the array held; every write is inside the 12 slots |
| Codecs.RoundTrip | src/app/media_helper.c:233-269 | naming distinct codecs of the build selects exactly those, in that order |
| Codecs.SetMediaCodecs | src/app/media_helper.c:107-187 | registering follows the array and reports the first failure |
| Codecs.RegisterCodecs | src/app/media_helper.c:287-292 | the count 12 registers everything, any other count the listed codecs |
| Codecs.RegisteringMeaning | src/app/media_helper.c:100-188 | registration succeeds if and only if every codec is in the build and initialises |
| Codecs.FirstFailureReported | src/app/media_helper.c:107-186 | otherwise the first codec that is not or does not decides which of the two failures is reported |
| Codecs.AcceptedIsUsable | src/app/media_helper.c:100-188 | a list accepted by configuration never reaches the unknown-codec case |
| Keywords.OneWord | src/app/getopts.c:105-126 | no text starts with two command words |
| Keywords.OrderIrrelevant | src/app/getopts.c:105-126 | the result is the word that starts the text, for every order of tests |
| Keywords.CommandWords | src/app/getopts.c:105-126 | the eight words, letter by letter, capitals or not; no text selects help or version |
| EventLoop.PollHandled | src/main.c:33-44 | for every command: a poll is handled if and only if nothing delivered before it stops the loop |
| Retry.Client.OnRxResponse | src/mod/ping.c:56-79 | a response that is no challenge stops the loop, a challenge changes nothing |
| Retry.Client.SendCb | src/mod/ping.c:81-115 | the whole new state after a transaction ends, failures of the library included |
| Retry.Client.MainLoop | src/main.c:33-44 | the loop handles whole polls and ends at the first point between polls where the flag is set |
| Retry.RunMeaning | src/mod/ping.c:56-115 | for every trace: the loop is stopped if and only if a response other than 401 and 407 was received or two transactions ended in these; that number is counted; one more request is sent if and only if the first such transaction could be answered |
| Retry.ResentOnce | src/mod/ping.c:89-113 | a request goes out only at the first completion with 401 or 407, and carries credentials |
| Retry.StopStays | src/main.c:41-44 | once stopped, always stopped |
| Retry.LeftRunning | src/mod/ping.c:81-115 | with nothing outstanding the loop is not stopped if and only if only challenges were received and a transaction timed out, or the one request was challenged and credentials could not be prepared |
| Retry.RetryBeforeLeaving | src/main.c:33-44 | the second request is sent before the loop is left if and only if the first challenged transaction can be answered and no earlier poll delivered another response |
| Retry.ProvisionalEndsPing | src/mod/ping.c:72-78 | a provisional response in one poll and the challenge in the next: the retry never goes out |
| Challenges.Publisher.OnRxResponse | src/mod/publish.c:56-75 | counter, verdict and stop flag after one message |
| Challenges.Publisher.Receive | src/mod/publish.c:56-75 | the verdicts and stop flag of a whole trace of messages |
| Challenges.Publisher.HandleEvents | src/mod/publish.c:56-84 | over a whole run of messages and callbacks the loop stops if and only if a challenge was swallowed or the callback ran |
| Challenges.PublishRunEnds | src/mod/publish.c:56-84 | from any counter value a whole run stops the loop if and only if the callback runs or a 401 or 407 arrives when the 16-bit count of messages exceeds 1 |
| Challenges.Publisher.MainLoop | src/main.c:33-44 | PUBLISH under the main loop: it is left at the first point between two polls where the run so far has stopped it |
| Challenges.PublishPollHandled | src/main.c:33-44 | a poll is handled if and only if no earlier one delivered the callback or such a challenge |
| Challenges.Subscriber.OnRxResponse | src/mod/subscribe.c:63-93 | counter, verdict and stop flag after one response |
| Challenges.Subscriber.HandleEvents | src/mod/subscribe.c:63-137 | over a whole run of responses, subscription states and transaction statuses the loop stops if and only if a challenge was swallowed, the subscription became active or terminated, or a 408 was reported |
| Challenges.SubscribeRunEnds | src/mod/subscribe.c:63-137 | from any counter value a whole run stops the loop if and only if the subscription becomes active or terminated, a 408 is reported, or a 401 or 407 arrives when the 16-bit count of these exceeds 1 |
| Challenges.Subscriber.MainLoop | src/main.c:33-44 | SUBSCRIBE under the main loop: it is left at the first point between two polls where the run so far has stopped it |
| Challenges.SubscribePollHandled | src/main.c:33-44 | a poll is handled if and only if no earlier one delivered such an event or such a challenge |
| Challenges.PublishClosedForm | src/mod/publish.c:60-72 | message k is swallowed if and only if it is a 401 or 407 and k as a 16-bit counter exceeds 1 |
| Challenges.SubscribeClosedForm | src/mod/subscribe.c:79-88 | a message is swallowed if and only if it is a 401 or 407 and the 16-bit number of these so far exceeds 1 |
| Challenges.PassedOnlyFirst | src/mod/publish.c:56-75 | within 65535 messages only the very first can be a challenge passed on; in general the first and last of each 65536 |
| Challenges.WrapPassesSecond | src/mod/publish.c:35 | the bound is tight: the 65536th of a row of challenges is passed on |
| Challenges.PublishStricter | src/mod/publish.c:66-72 | within 65535 messages PUBLISH swallows whatever SUBSCRIBE swallows |
| Challenges.StricterBoundTight | src/mod/publish.c:35 | a 65536-message trace on which it does not |
| Challenges.AgreeIff | src/mod/subscribe.c:79-93 | up to 65535 messages the two agree if and only if the first is a challenge or none is |
| Challenges.ProvisionalFirst | src/mod/publish.c:60-72 | the run 100, 401: PUBLISH swallows the challenge, SUBSCRIBE does not |
| Invite.Driver.OnRxResponse | src/mod/invite.c:61-83 | a 487 is acknowledged, sent if the library made the ACK, and stops the loop |
| Invite.Driver.CallOnStateChanged | src/mod/invite.c:93-123 | what each session state makes the driver ask for |
| Invite.Driver.HandleEvents | src/mod/invite.c:61-123 | over a whole run the loop stops if and only if the session is disconnected or a 487 is seen |
| Invite.OneRequestPerEntry | src/mod/invite.c:104-122 | in any run the BYEs asked for are as many as the entries into CONFIRMED, and the CANCELs as many as the entries into EARLY with --cancel |
| Invite.EndRequests | src/mod/invite.c:104-122 | for every session that, once confirmed, is only disconnected: the CANCELs first, then exactly one BYE if confirmed, even after a CANCEL; restarts after a challenge included |
| Invite.EndsInState | src/mod/invite.c:104-122 | in any run CANCEL is asked for only in the early state with --cancel, BYE only in the confirmed state |
| Invite.ByeAsked | src/mod/invite.c:114-120 | in any run the BYE of a confirmed session has been asked for before anything that follows |
| Invite.Driver.MainLoop | src/main.c:33-44 | INVITE under the main loop: whole polls are handled, the loop is left at the first point between two of them where a disconnection or a 487 has been seen, and what was asked for by then is what the handled polls call for |
| Invite.ByeBeforeLeaving | src/mod/invite.c:61-123 | a BYE is asked for before the loop is left if and only if some poll confirms the session and no earlier poll delivered a disconnection or a 487 |
| Invite.ConfirmedTooLate | src/mod/invite.c:61-123 | a 487 in one poll and the confirmation in the next: no BYE is asked for |
| Invite.AcksAndSends | src/mod/invite.c:69-120 | in any run an ACK is asked for once for every 487; the messages sent are as many as those the library made for a 487, an entry into CONFIRMED, or with --cancel into EARLY; each is sent directly after it was asked for |
| Invite.SentAtOnce | src/mod/invite.c:74-120 | every message that is made is sent: its request and the sending stand next to each other in the log, in the place of its event |
| Invite.InvitePollHandled | src/main.c:33-44 | a poll is handled if and only if no earlier one delivered DISCONNECTED or a 487 |
| Options.SkipSpaces | src/app/getopts.c:167-184 | the trimming loop |
| Options.App.constructor | src/app/getopts.c:432-488 | the initial configuration |
| Options.IsStringNumeric | src/app/getopts.c:374-386 | the loop answers whether the trimmed text is digits only |
| Options.SetPortValue | src/app/getopts.c:136-150 | the port, or the exit |
| Options.Slots.Add | src/app/getopts.c:195-198 | one more element, or a write outside the array |
| Options.App.AddCustomHeader | src/app/getopts.c:152-201 | what one -H does to the configuration: rejection, guard, and the write past the array |
| Options.App.AddProxyUri | src/app/getopts.c:203-231 | what one -R does: failures to parse or print, guard, and the write past the array |
| Options.App.SetMwiList | src/app/getopts.c:299-321 | the four counts become those of the list and -M is remembered |
| Options.App.SetEventType | src/app/getopts.c:323-336 | what one -E does |
| Options.App.SetContentTypeOf | src/app/getopts.c:259-297 | what one -C does |
| Options.App.ParseArgvLeft | src/app/getopts.c:338-364 | command and destination from the remaining arguments |
| Options.App.PostParseSetup | src/app/getopts.c:388-430 | required arguments, the MWI override and the default user name |
| Options.App.GetOptions | src/app/getopts.c:490-638 | a whole command line: configuration, status, exit, or a write outside an array |
| Settings.LastWins | src/app/getopts.c:573-616 | -M, --mwi-acc, --codec and -A: the last of each kind decides, whatever comes between |
| Settings.LastEventWins | src/app/getopts.c:576-581 | -E and -C: the last of each kind decides |
| Settings.LastUserWins | src/app/getopts.c:541-543 | the last -u decides; options touch neither command nor destination |
| Settings.LastNumberWins | src/app/getopts.c:535-569 | -P, --rtp-port and -X: the last of each kind decides |
| Settings.LastTargetWins | src/app/getopts.c:594-605 | the last --to and the last --body decide; --cancel counts once given |
| Settings.LastMediaTypeWins | src/app/getopts.c:576-578 | the last -C decides the media type |
| Settings.TrimRoundTrip | src/app/getopts.c:366-372 | trimming takes away the white space around a text and nothing else |
| Settings.PortMeaning | src/app/getopts.c:136-150 | every text: it gives a port if and only if, without the white space around it, it is one or more digits whose value as an `int` is in 1..65535, and that value is the port; otherwise the process exits |
| Settings.ExpiresMeaning | src/app/getopts.c:563-569 | every text: it is accepted if and only if, without the white space around it, it is digits or empty; the value is theirs in 32 bits |
| Settings.WithinArrays | src/app/getopts.c:160-230 | no write leaves the arrays if and only if at most 12 -H and at most 12 accepted -R options precede the first option that ends the parsing; and then the parsing goes through if and only if no option ends it |
| Settings.StoredLists | src/app/getopts.c:152-231 | when parsing goes through, the stored headers are those of the -H options in order, all with colons, and the stored proxies those the -R options ask for; at most 12 of each |
| Settings.ThirteenHeaders | src/app/getopts.c:160-198 | 13 times -H X:1 writes outside the header array |
| Settings.HeaderRoundTrip | src/app/getopts.c:166-193 | name and value come back from the text, with any white space in front of each and colons in the value |
| Settings.HeaderRejected | src/app/getopts.c:168-173 | a header is refused if and only if it has no colon |
| Settings.ThirteenProxies | src/app/getopts.c:206-230 | 13 acceptable proxies write outside the proxy array |
| Settings.LooseRoutingForcedOnce | src/app/getopts.c:220-230 | when parsing goes through, loose routing is forced on the first accepted proxy, even after rejected ones, and on no other |
| Settings.ProxiesInOrder | src/app/getopts.c:226-230 | when parsing goes through, every accepted option is stored, at the place given by the accepted ones before it |
| Settings.CodecsInForce | src/app/getopts.c:473-475 | the codecs in force are usable unless none were asked for and the build lacks g711 |
| Settings.DefaultNotInBuild | src/app/getopts.c:473-475 | a build without g711 and a command line without --codec reach the unknown-codec case |
| Settings.MwiRoundTrip | src/app/getopts.c:299-321 | written counts, negative ones included, are stored in order, padded with zeros, those after the fourth ignored |
| Settings.MwiCountKept | src/app/getopts.c:317 | a count is stored as written if and only if it fits an `int` |
| Settings.MediaTypeRoundTrip | src/app/getopts.c:285-296 | "type/subtype" is stored apart, a bare subtype under application |
| Settings.MediaTypeParts | src/app/getopts.c:285-296 | any text with a slash: type and subtype are its first two non-empty parts, empty where there are fewer |
| CommandLine.Accepted | src/app/getopts.c:394-429 | an accepted command line was parsed to the end; REFER has a target, MESSAGE a body, a destination a user name |
| CommandLine.ArgumentsDecide | src/app/getopts.c:338-364 | command, destination and user name of an accepted command line |
| CommandLine.CommandLineWithinArrays | src/app/getopts.c:490-638 | the condition for no write outside the arrays, over whole command lines |
| CommandLine.AcceptedWhen | src/app/getopts.c:338-430 | a command line whose options go through is accepted if and only if REFER comes with --to, MESSAGE with --body, and without -u a destination can be parsed; otherwise the process exits |
| CommandLine.EndedByOption | src/app/getopts.c:499-628 | how the first option that ends the parsing ends it: failure for a header without colon, help and version for -h and -V, exit for a port, an expiry or a codec list that is refused |
| CommandLine.NothingAsked | src/app/getopts.c:499-504 | an empty command line asks for help |
| CommandLine.NumbersConfigured | src/app/getopts.c:432-569 | ports and expiry of an accepted command line: the last option of each kind, else 0, 4000 and 3600 |
| CommandLine.TextsConfigured | src/app/getopts.c:432-616 | target, body, agent, codecs, --cancel and -M of an accepted command line: the last option of each kind, else nothing, and g711 as codec |
| CommandLine.MediaTypeDecided | src/app/getopts.c:259-418 | the media type of an accepted command line depends only on whether -M was given and the last -C, case by case |
| Requests.TxData.AddSipHeaders | src/app/sip_helper.c:182-204 | exactly the configured headers whose name is missing are appended |
| Requests.MergedOnce | src/mod/sip_mangler.c:51-56 | merging again changes nothing, even after headers were added in between |
| Requests.MergedCopies | src/app/sip_helper.c:195-203 | the request's headers stay in front; a present name gains no copy, a missing one exactly one |
| Requests.FirstWins | src/app/sip_helper.c:195-203 | among configured headers that share a name the first is added |
| Requests.AddedInOrder | src/app/sip_helper.c:187-203 | as many headers are added as are wanted under a new name, each at the place given by how many of these stand before it |
| Requests.AgentWins | src/app/sip_helper.c:187-193 | a -A value wins over a custom User-Agent |
| Requests.SetProxiesList | src/app/sip_helper.c:206-228 | whether there is a route set, and the routes in it |
| Requests.RoutesInOrder | src/app/sip_helper.c:218-225 | there are as many routes as proxies that parse, and each of these has its route at the place given by how many parse before it |
| Requests.CustomHeadersSent | src/app/sip_helper.c:195-203 | every request of an accepted command line carries each -H name, once if the request lacked it |
| Requests.OnlyAskedHeadersSent | src/app/sip_helper.c:182-204 | each header of a merged request was in it, or is one of the -H headers, or is the User-Agent that the last -A names with a value that is not blank |
| Requests.FirstCustomSent | src/app/sip_helper.c:187-203 | of the -H headers of one name that the request lacks, the first is sent, value included, unless -A names a User-Agent under that name |
| Requests.AskedAgentSent | src/app/sip_helper.c:187-193 | the User-Agent of the last -A is the only one of a request that had none |
| Notify.AddEventHdr | src/mod/notify.c:82-104 | the header appended and the event type settled |
| Notify.EventDecided | src/mod/notify.c:82-104 | the Event value depends only on whether -M was given, the last -E and the last -C |
| Notify.Snprintf | src/mod/notify.c:149-156 | what a bounded buffer holds after formatting |
| Notify.BodyLength | src/mod/notify.c:149-156 | the length of the body from the account and the printed counts |
| Notify.AddMwiBody | src/mod/notify.c:148-161 | buffer and length hold the whole body if and only if account and counts leave it shorter than 2048; in every case the text handed to the message is the formatted body as the buffer cuts it |
| Notify.LongAccount | src/mod/notify.c:148-161 | command lines with a long account whose body does not fit |
| Notify.VoiceRead | src/mod/notify.c:152 | the four numbers, whatever their signs, are read back from the line with the label Voice-Message |
| Notify.BodyRoundTrip | src/mod/notify.c:148-156 | waiting flag, account and counts, negative ones included, are read back from the formatted text, under their labels |
| Notify.BodyTold | src/mod/notify.c:148-161 | they are read back from the text handed to the message, whatever stands past the buffer, if and only if the body is shorter than 2048 |
| Notify.SummarySent | src/mod/notify.c:148-161 | for an accepted command line with counts that fit an `int`, the message tells the counts of the last -M and the account if and only if the body they make is shorter than the buffer |
| Notify.AccountTold | src/app/getopts.c:409-417 | the account told is the last --mwi-acc, or the destination when that is missing or blank |

## Left out

- Codecs.SupportCodec: the mask is one expression, because the source assembles it under preprocessor conditionals, where each build has a constant.
- Options.App.AddCustomHeader: the write past the array ends the model's run with `Overrun`; what C makes of the memory behind the array is not modelled, and the same holds for Options.App.AddProxyUri.
- Requests.TxData.AddSipHeaders: headers are values; the source links the configured header node itself into each message, and sharing of nodes is not modelled.
- PjLib.StrToL: numbers beyond the range of `long` are read as if it had no limit; the conversions to `int` and `pj_uint16_t` are modelled.
- Options.Atoi: numbers beyond the range of `int`, for which C defines no result, are truncated to it.
- Retry.Client.SendCb: the counter is unbounded, where the source has an `int`.
- src/mod/message.c and src/mod/refer.c: the same retry machine as ping; their bodies and headers are straight-line.
- `set_sub_evtype` (src/mod/subscribe.c:139-148) and the Content-Type header and presence bodies of NOTIFY (src/mod/notify.c:106-127,162-171): straight-line choices and library documents.
- src/mod/register.c: registration is the library's.
- PJSIP and pjmedia themselves: transports, transactions, digest computation, URI and SIP message parsing, SDP.
- `system_resolv_ns` and `sippak_set_resolver_ns` (src/app/dns.c:97-164): operating system calls.
- Log options, presence status and note, transport, password and contact (src/app/getopts.c): each is stored as given and decides nothing here.
- `sippak_create_from_hdr`, `sippak_create_ruri` and `sippak_create_contact_hdr` (src/app/sip_helper.c:33-127): printing of library URIs.
- src/mod/logger.c and src/app/usage.c: terminal output.
- How `pj_getopt_long` splits a command line into options: the model starts from the options.
