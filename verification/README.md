# Verification model of the mail server and its account store

This project models the mailbox store, the POP3, IMAP and SMTP sessions that
share it, the outbound queue and the account records of the server, and proves
what they promise. `dafny verify dfyconfig.toml` checks everything.

How the parts fit together:

- `MailDisk` is one account's mail directory: an index per mailbox and one body
  file per message. Every store call is a function on it. `MailStore.Store` is
  the store the sessions call, each method proved against its function;
  `Copying` and `Filing` say what repeated appends amount to; `StoreRuns` runs
  calls one after another.
- `Interleavings` takes the calls apart into file operations and lets sessions
  with old snapshots, unlocked body reads, half-done calls and crashes happen
  in any order. POP3's PASS is its `Open` over INBOX, RETR its `Read` followed
  by `SetFlags`, DELE `Mark`, RSET `Unmark`, QUIT `Quit`. `UidLimits` shows
  where the UID promises end, and `StaleReads` what old snapshots read.
- `EndToEnd` follows one accepted DATA command through filing and the queue, from
  the conversation that led to it to any later run of the queue.
- `Pop3`, `Imap`, `Smtp`, `SaslLogin` are the sessions; `SmtpRuns` runs an SMTP
  conversation as the SMTP library permits it. `Transport` and `Delivery` follow
  the bytes of a message from the sender to a POP3 client.
- `Backoff`, `Relay`, `Spool`, `SpoolSafety`, `SpoolRuns` are the outbound
  queue: the retry ladder, one delivery round, the queue as file operations with
  failures and crashes, its invariant, and what follows over all runs.
  `RelayQueue.Queue` is the queue as it is called; each of its methods is a run
  of `Spool`.
- `Accounts`, `Registration`, `Totp`, `Overlaps`, `Tokens`, `Address` are account look-up,
  registration, second factors, login tokens and addresses. `Flags`,
  `MailboxNames` and `Text` are what the rest is written in.

What turned out not to hold without a condition, with the exact condition proved:

- The names "", "." and ".." do not stand for a directory of their own but for
  the account's mail directory and the account's directory. Deleting a mailbox
  leaves every other one in place exactly when its directory is its own
  (`MailDisk.DeletionIsLocal`); making and deleting "." erases INBOX
  (`MailDisk.DotErasesInbox`), after which an open POP3 session can read a new
  message for an old one (`UidLimits.DotMisleadsPop3`). The results over runs are
  for names with a directory of their own.
- A mailbox keeps its index in order only while UIDNext is below 2^32 - 1; at
  that value it wraps to 0 and the next reader starts again from UID 1
  (`MailDisk.AppendAgrees`, `UidLimits.WrapReusesUid`).
- UIDVALIDITY is a clock reading in whole seconds: a mailbox deleted and made
  again within one second reuses identities (`UidLimits.SameSecondReusesIdentity`).
  A new mailbox keeps them apart exactly when its stamp is nonzero and was never
  used (`Interleavings.NewMailboxIsSafe`); one that was used comes to show some
  pair with a second body (`UidLimits.UsedStampRebinds`,
  `UidLimits.SharedStampCollides`). The comment at mail/store.go:170-171 calls
  the value stable; for an INBOX that has not been written yet it is made up
  anew at every look (`UidLimits.UidValidityIsStable`).
- A client that kept a snapshot of a deleted and recreated mailbox reads the new
  mailbox's bodies (`UidLimits.StaleSnapshotReadsAnother`). While the mailbox has
  the UIDVALIDITY of the snapshot it gets its own message; after that, the message
  the UID is bound to now, or one that is not listed: of an append that is still
  in progress or was given up, or a file left behind by a deletion
  (`StaleReads.StaleReadIsRight`).
- Mailbox names survive the encoding exactly when every code point is at most
  U+00FF (`MailboxNames.RoundTrip`, `MailboxNames.EuroCollides`).
- A body comes back over POP3 byte for byte exactly when it consists of whole
  CRLF lines none of which ends in a further CR (`Delivery.BodySurvives`).
- Grouping recipients by domain loses nobody exactly when every address splits
  (`Relay.GroupingConserves`); the SMTP session guarantees that it does.
- A bounce reaches the submitter exactly when the client spelled its own ID as
  registered or no other ID differs from it by case alone
  (`SmtpRuns.QueuedSenderResolves`).
- A queue entry is left without its body exactly when the entry cannot be
  unlinked and the body can (`SpoolRuns.RemovalKeepsPairs`); its recipients were
  all settled by then (`SpoolRuns.DroppingIsHarmless`).
- A queued body that is there but cannot be read is treated as missing, and its
  message is dropped. If none of its rounds was cut short, somebody is lost exactly
  when the entry still names a recipient (`SpoolRuns.UnreadableBodyLoses`), as in
  the six steps of `SpoolRuns.UnreadableBodyLosesAll`; after a round that was cut
  short the entry may name recipients that were reached in it
  (`SpoolRuns.CutRoundLosesNobody`).
- Which of the two collision codes a registration gets depends on the order the
  user directory is listed in exactly when one record has the ID and another the
  e-mail (`Registration.CodeDependsOnOrder`); whether it collides does not.
- Second-factor handlers read an account's record and write all of it back later
  without the lock, so they overlap each other and profile updates. Whatever number
  of them does, codes left and codes spent are the codes issued throughout exactly
  when no accepted recovery login or update overwrites codes that changed since it
  read them (`Overlaps.BooksExactly`). Then each code is accepted at most once
  (`Overlaps.CodesWorkOnce`), and while the second factor stays set up, only then
  (`Overlaps.OnceExactly`). Two logins with one code both succeed exactly when both
  read first (`Overlaps.TwoLoginsOneCode`); with two codes, a spent one can come back
  for a login that starts when the others are done (`Overlaps.ThreeLoginsTwoCodes`).
- For the same reason an update can be undone: the stored profile is what the
  updates come to exactly when no write puts back an older value it did not mean to
  set (`Overlaps.ProfileExactly`).

Assumptions, all stated as preconditions: a new mailbox gets a nonzero stamp no
mailbox of the account had before; queue IDs are new; the SMTP library allows
RCPT and DATA only after a MAIL that was accepted and AUTH to succeed once; in
`Totp` and `Registration` each second-factor handler runs as one step, which
`Overlaps` does without; a token signature contains no underscore. Letter case is
folded over ASCII, and strings are sequences of code points.

## Model

| member | source | states |
|---|---|---|
| MailDisk.FileNameInjective | mail/store.go:334-337 | message file names are equal only for equal UIDs |
| MailDisk.AppendedOk | mail/store.go:339-357 | an append keeps UIDs ascending below UIDNext exactly while UIDNext is below 2^32 - 1; at that value the next reader sees UID 1 |
| MailDisk.PutBodyFrame | mail/store.go:334-344 | writing a body leaves every file of another directory or UID as it was |
| MailDisk.AppendAgrees | mail/store.go:319-357 | an append keeps index and files in agreement, with the recorded sizes, if and only if there was room for a UID and the stamp is not zero |
| MailDisk.SetFlagsAgrees | mail/store.go:365-384 | flag changes keep index and files in agreement and stored flags normalised |
| MailDisk.SetSubscribedAgrees | mail/store.go:270-281 | subscribing keeps index and files in agreement |
| MailDisk.RemoveAgrees | mail/store.go:422-448 | removing keeps index and files in agreement |
| MailDisk.RemoveResumes | mail/store.go:422-448 | stopping after any number of file deletions and removing again ends where one complete removal does |
| MailDisk.KeptMeaning | mail/store.go:431-446 | exactly the messages not asked for stay, and stay in order |
| MailDisk.CreateAgrees | mail/store.go:215-230 | creating keeps index and files in agreement |
| MailDisk.DeleteAgrees | mail/store.go:233-246 | deleting keeps index and files in agreement |
| MailDisk.DeletionIsLocal | mail/store.go:125-127 | deleting a mailbox leaves every other one in place if and only if its directory is its own, not the mail or the account directory |
| MailDisk.DotErasesInbox | mail/store.go:215-246 | making and deleting "." erases INBOX, whose next look is a new mailbox |
| MailDisk.RenameAgrees | mail/store.go:249-267 | renaming keeps index and files in agreement and succeeds exactly when the source is there, the target is free, neither is INBOX and both have a directory of their own |
| MailDisk.MovedBodies | mail/store.go:249-267 | a rename moves every body of the mailbox, unchanged, and touches no other |
| MailDisk.AppendedShown | mail/store.go:319-357 | the next snapshot lists the new message last, under the UID answered, with its size, the tracked flags and the date given or the clock |
| MailDisk.AppendedReads | mail/store.go:334-362 | it reads as the body it was given, and what was there reads as before |
| MailDisk.SubscriptionShown | mail/store.go:270-281 | the next snapshot differs in the subscription alone |
| MailDisk.CreatedShown | mail/store.go:161-230 | a new mailbox is empty, subscribed and starts at UID 1; making it again fails |
| MailDisk.DeletedIsGone | mail/store.go:233-246 | a deleted mailbox is gone with every mailbox inside the directory it stands for, and the others are as they were |
| MailDisk.RenamedShown | mail/store.go:249-267 | the new name shows and reads what the old one did, and the old one is gone |
| Copying.SelectedMeaning | mail/store.go:396-405 | exactly the messages asked for are copied, in mailbox order |
| Copying.CopyMeaning | mail/store.go:388-418 | undisturbed and with room, a copy appends the selected bodies, flags and dates in order under fresh ascending UIDs and changes nothing else, also within one mailbox |
| Copying.NextFileIsFree | mail/store.go:334-344 | the file of the next UID does not exist yet |
| Filing.AppendGrows | mail/store.go:319-357 | one delivery adds one unread message under the next UID and leaves the rest of the INBOX readable as before |
| Filing.FiledMeaning | mail/smtp.go:239-256 | every account receives exactly the copies due to it, in order, and no other account's |
| MailStore.Store.constructor | mail/store.go:71-73 | a new store is empty |
| MailStore.Store.ReadIndex | mail/store.go:135-159 | missing INBOX reads as new, any other missing mailbox as an error, zero fields are filled in |
| MailStore.Store.WriteIndex | mail/store.go:176-186 | the index of that mailbox and no other is replaced |
| MailStore.Store.Snapshot | mail/store.go:293-314 | a copy of the index as it is now |
| MailStore.Store.SetSubscribed | mail/store.go:270-281 | the call the disk model describes |
| MailStore.Store.Append | mail/store.go:319-357 | the call the disk model describes: body file first, then the index; a failed write answers an error and leaves what came before it |
| MailStore.Store.Body | mail/store.go:360-362 | the file the message names, or an error |
| MailStore.Store.SetFlags | mail/store.go:365-384 | the call the disk model describes |
| MailStore.Store.Copy | mail/store.go:388-418 | the call the disk model describes: snapshot, then one append per selected message |
| MailStore.Store.Remove | mail/store.go:422-448 | the call the disk model describes: files first, index last |
| MailStore.Store.RemoveFiles | mail/store.go:431-444 | exactly the files of the doomed messages go, and the others are kept in order |
| MailStore.Store.CreateMailbox | mail/store.go:215-230 | the call the disk model describes; an empty name is refused |
| MailStore.Store.DeleteMailbox | mail/store.go:233-246 | the call the disk model describes: the whole tree of the directory goes; INBOX is refused |
| MailStore.Store.RenameMailbox | mail/store.go:249-267 | the call the disk model describes; INBOX is refused on either side |
| MailStore.Store.ListMailboxes | mail/store.go:190-212 | INBOX first, then exactly the stored names, sorted and without duplicates |
| MailStore.InboxDir | mail/store.go:77-102 | only INBOX, in any casing, lives in the directory INBOX |
| MailStore.ListingOfDisk | mail/store.go:190-212 | a directory listing in any order names exactly the mailboxes that exist |
| MailboxNames.CanonicalIdempotent | mail/store.go:77-85 | canonical names are fixed |
| MailboxNames.EncodeMailboxName | mail/store.go:91-103 | the encoding loop computes the encoding of each character in turn |
| MailboxNames.DecodeMailboxName | mail/store.go:105-119 | the decoding loop computes the decoding, escapes and stray percent signs included |
| MailboxNames.RoundTrip | mail/store.go:91-119 | decoding inverts encoding if and only if every code point is at most U+00FF |
| MailboxNames.EncodeInjective | mail/store.go:91-103 | two such names never share a directory |
| MailboxNames.EuroCollides | mail/store.go:96-100 | beyond U+00FF two names do share one |
| MailboxNames.ListMailboxes | mail/store.go:190-212 | the listing loop computes INBOX followed by the sorted decoded names |
| MailboxNames.ListingIsTheStoredNames | mail/store.go:190-212 | for names that read back, the listing is INBOX first and then exactly them, sorted, none twice |
| StoreRuns.RunAgrees | mail/store.go:215-448 | over every run of store calls with room, on names with a directory of their own, index and files agree |
| StoreRuns.NamesAfterRun | mail/store.go:190-267 | over every such run, the mailboxes on disk are exactly those created or renamed to and not since deleted, under names that read back |
| Interleavings.StepKeeps | mail/store.go:215-448 | on mailboxes with a directory of their own, every file operation, session command, abandoned call and crash keeps the invariant |
| Interleavings.RunKeeps | mail/store.go:215-448 | the invariant holds after every interleaving |
| Interleavings.SameUidSameBody | mail/store.go:152-174 | no (UIDVALIDITY, UID) pair is ever bound to two bodies: every body handed out while the mailbox kept its UIDVALIDITY is the one first bound |
| Interleavings.AppendBindsFreshUid | mail/store.go:319-357 | an append binds a pair that was not bound before |
| Interleavings.UninterruptedCall | mail/store.go:319-448 | a call whose file operations are not interrupted does what the one-step call does |
| Interleavings.SnapshotFixed | mail/pop3.go:57-60 | no step of any other session or call changes a session's snapshot |
| Interleavings.RetrieveIsRight | mail/pop3.go:320-341 | RETR n answers with the body of the n-th snapshot message or an error, never another's |
| Interleavings.UnlessItQuits | mail/pop3.go:389-409 | a run without one client's steps is a run too and ends with the same disk, call in progress, bindings and other sessions, as long as that client does not quit |
| Interleavings.QuitRemovesMarked | mail/pop3.go:389-409 | QUIT removes exactly the marked messages still present and nothing appended after the snapshot |
| Interleavings.NewMailboxIsSafe | mail/store.go:161-174 | a new mailbox keeps identities apart if and only if its stamp is nonzero and unused |
| UidLimits.UidValidityIsStable | mail/store.go:135-174 | UIDVALIDITY does not depend on when it is asked for if and only if the mailbox is stored with a nonzero one |
| UidLimits.SameSecondReusesIdentity | mail/store.go:172-174 | two mailboxes of one name made in one second give the same pair two bodies |
| UidLimits.UsedStampRebinds | mail/store.go:161-174 | in a mailbox made with a used stamp, as many deliveries as a UID says give that pair a second body |
| UidLimits.SharedStampCollides | mail/store.go:161-174 | two mailboxes with one stamp come to show one pair with two bodies |
| UidLimits.DotMisleadsPop3 | mail/store.go:215-246 | after "." was made and deleted, an old POP3 snapshot reads another message |
| UidLimits.StaleSnapshotReadsAnother | mail/store.go:360-362 | a snapshot of a recreated mailbox reads the new mailbox's body |
| UidLimits.WrapReusesUid | mail/store.go:152-157 | after 2^32 - 1 appends a UID is given out twice |
| StaleReads.RunKnown | mail/store.go:334-344 | every body file on disk has the name and the text some append of the run gave it, renames included |
| StaleReads.StaleReadIsRight | mail/store.go:360-362 | after any run, a read from a snapshot however old gives the client's own message while the mailbox has its UIDVALIDITY; otherwise the one the UID is bound to now, or an unlisted one - that of the append in progress, if it is at this UID - and always one an append put down under this UID |
| Flags.HasFlag | mail/flags.go:28-35 | found if and only if the case-insensitive set holds it |
| Flags.NormaliseFlags | mail/flags.go:39-50 | the loop's result is in normal form: no empty, \Recent or repeated flag |
| Flags.NormaliseMeaning | mail/flags.go:39-50 | as a set, exactly the tracked flags survive |
| Flags.NormaliseKeepsNormalPrefix | mail/flags.go:39-50 | normalised flags are unchanged, whatever is appended to them |
| Flags.NormaliseIdempotent | mail/flags.go:39-50 | normalising twice changes nothing |
| Flags.ApplyFlags | mail/flags.go:52-69 | the three arms compute the specified list |
| Flags.ApplyMeaning | mail/flags.go:52-69 | set, add and remove are replacement, union and difference of case-insensitive sets, and keep normal form |
| Transport.NormaliseLineEndings | mail/smtp.go:368-382 | the loop computes the normalised text |
| Transport.NormalisedIsNormal | mail/smtp.go:368-382 | every LF follows a CR |
| Transport.NormalisedIsIdentity | mail/smtp.go:368-382 | text already in that form is unchanged |
| Transport.NormalisedIdempotent | mail/smtp.go:368-382 | normalising twice changes nothing |
| Transport.NormalisedSameText | mail/smtp.go:368-382 | with CRLF read as LF the text is the same |
| Transport.NormalisedLength | mail/smtp.go:368-382 | the length grows by the number of bare LFs |
| Transport.WriteDotted | mail/pop3.go:414-450 | what is written is the dotted form of the lines the limit allows |
| Transport.ReceiveDotted | mail/pop3.go:414-450 | a client that drops stuffed dots gets exactly those lines, whatever follows on the wire |
| Transport.RetrieveRoundTrip | mail/pop3.go:411-450 | RETR delivers exactly the body's lines without their line ends |
| Transport.TopIsPrefix | mail/pop3.go:411-450 | TOP n delivers the header, the blank line and as many of n lines as there are, a prefix of RETR |
| Delivery.BodySurvives | mail/pop3.go:414-450 | the client's lines joined by CRLF are the body if and only if it is whole CRLF lines with no CR CR LF |
| Delivery.HeaderSurvives | mail/smtp.go:239-241 | a trace header of whole CRLF lines leaves it to the text whether the message survives |
| Delivery.SentIsRetrieved | mail/smtp.go:239-241 | header and normalised text, as stored, come back over POP3 byte for byte if and only if the text arrived in whole lines without CR CR LF |
| Pop3.VisibleMeaning | mail/pop3.go:253-259 | what is listed are exactly the unmarked messages, in ascending numbers |
| Pop3.LookupIsVisible | mail/pop3.go:229-245 | the numbers listed are exactly those the commands accept |
| Pop3.CountOfVisible | mail/pop3.go:247-262 | each mark takes one message off the count |
| Pop3.UidTextInjective | mail/pop3.go:316-318 | unique-ids are equal only for the same UIDVALIDITY and UID |
| Pop3.Session.Pass | mail/pop3.go:192-226 | all five ways to fail change nothing; success fixes account and snapshot |
| Pop3.Session.Find | mail/pop3.go:229-245 | a message by number, unless unauthenticated, out of range or marked |
| Pop3.Session.Stat | mail/pop3.go:247-262 | count and size of exactly the listed messages |
| Pop3.Session.List | mail/pop3.go:264-287 | one message, or all unmarked ones with their numbers |
| Pop3.Session.Uidl | mail/pop3.go:291-314 | the same with unique-ids |
| Pop3.Session.Retr | mail/pop3.go:320-341 | sends the dotted body and then marks it seen; a failure changes nothing |
| Pop3.Session.Top | mail/pop3.go:343-366 | sends the dotted beginning of the body |
| Pop3.Session.Dele | mail/pop3.go:368-375 | marks that message and no other |
| Pop3.Session.Rset | mail/pop3.go:378-385 | unmarks all |
| Pop3.Session.Quit | mail/pop3.go:389-409 | removes the marked UIDs from the INBOX, and touches nothing when there are none |
| Imap.ResolvedMeaning | mail/imap.go:348-369 | resolved UIDs ascend strictly, and are exactly those whose number or UID was asked for |
| Imap.SelectsPicked | mail/imap.go:348-361 | acting on the resolved UIDs is acting on the picked messages |
| Imap.UnseenSeqNum | mail/imap.go:152-159 | the number of the first unread message, 0 exactly when there is none |
| Imap.Unseen | mail/store.go:462-470 | counts the unread messages |
| Imap.UnreadIffSome | mail/store.go:462-470 | none is counted exactly when every message is seen |
| Imap.Deleted | mail/store.go:451-459 | the UIDs with \Deleted, in order |
| Imap.DeletedUidsMeaning | mail/store.go:451-459 | exactly the messages with \Deleted |
| Imap.UpdateMeaning | mail/imap.go:307-325 | undisturbed, exactly the messages asked for get the new flags |
| Imap.CopyPicked | mail/imap.go:327-333 | undisturbed, exactly the messages asked for are appended to the destination, in order |
| Imap.ExpungeMeaning | mail/imap.go:335-345 | undisturbed, exactly the messages without \Deleted stay, in order |
| Imap.Mailbox.Resolve | mail/imap.go:348-361 | the loop resolves against the snapshot it takes |
| Imap.Mailbox.UpdateMessagesFlags | mail/imap.go:307-325 | flags are set on the resolved UIDs; an unknown operation does nothing |
| Imap.Mailbox.CopyMessages | mail/imap.go:327-333 | the resolved UIDs are copied |
| Imap.Mailbox.Expunge | mail/imap.go:335-345 | removes the \Deleted messages of a snapshot, or nothing |
| Address.SplitAddress | mail/address.go:11-25 | the parts are not empty, hold no blanks, and the domain is in lower case without @ |
| Address.CheckLocalDomain | mail/address.go:28-38 | local if and only if equal, ignoring case, to a configured domain |
| Address.OwnAddressSplits | mail/address.go:11-25 | any spelling of an account's address splits into a spelling of its ID and the configured domain |
| Accounts.FindById | auth/account.go:51-77 | the two loops compute exact match first, then a unique match ignoring case |
| Accounts.FoundMeaning | auth/account.go:51-77 | the answer depends on the set of records alone |
| Accounts.FoundOrderFree | auth/account.go:51-77 | two listings of the directory give the same answer |
| Accounts.SpellingResolves | auth/account.go:42-77 | a spelling leads to its account if and only if it is exact or no other ID equals it ignoring case |
| Accounts.AtMostOneMatch | auth/auth.go:105-120 | a login query names at most one record |
| Accounts.VerifyPassword | auth/totp.go:62-77 | a matching record whose password fits, or none if there is none |
| Accounts.FindByQuery | auth/totp.go:291-297 | a matching record, or none if there is none |
| Accounts.LoopsAgree | auth/auth.go:105-120 | all look-up loops name the same record, in whatever order each reads the directory |
| Registration.UserStore.LoadUsers | auth/auth.go:189-217 | every record once, in listing order |
| Registration.UserStore.Register | auth/auth.go:60-102 | refused exactly when the ID or the e-mail ignoring case is taken; the code is that of the first record that collides; otherwise one record is added under a UID above all others |
| Registration.CodeDependsOnOrder | auth/auth.go:68-75 | two listings give different codes if and only if one record has the ID and another the e-mail |
| Registration.UserStore.UpdateProfile | auth/auth.go:124-150 | merges into the profile of the token's own account and nothing else |
| Registration.UserStore.TotpSign | auth/totp.go:83-137 | one set-up step on the record the query and password name |
| Registration.UserStore.TotpVerify | auth/totp.go:140-196 | one verification step on that record; a wrong code removes the set-up |
| Registration.UserStore.TotpUnsign | auth/totp.go:199-231 | one removal step on that record |
| Registration.UserStore.RecoveryLogin | auth/totp.go:274-330 | one recovery step on the record the query names |
| Registration.RunKeepsIdentities | auth/auth.go:60-102 | over all runs of registrations, second-factor handlers and profile updates, IDs, e-mails ignoring case and UIDs stay unique |
| Registration.OneAccountPerQuery | auth/auth.go:105-120 | after any run a query names at most one account |
| Totp.SpendCode | auth/totp.go:305-313 | the loop removes the first match ignoring case and keeps the rest in order |
| Totp.RunOk | auth/totp.go:83-330 | over all runs: verified implies a secret, codes only when verified, and codes left plus codes spent are the codes issued, at most ten |
| Totp.RecoverMeaning | auth/totp.go:299-325 | a recovery login succeeds exactly on a match and removes one code |
| Totp.SpentCodeIsRefused | auth/totp.go:299-319 | a code that occurred once is refused after it was spent |
| Overlaps.ShapeKept | auth/totp.go:83-325 | however handlers and updates overlap, verified implies a secret, codes only when verified and at most ten, and ID, e-mail, UID and password stay |
| Overlaps.UndisturbedIsSerial | auth/totp.go:83-325 | where no request writes over a record that changed since it read it, the record is what the same requests leave one after another |
| Overlaps.OneByOneIsRun | auth/totp.go:83-325 | for handlers, one after another is the run of the serialised model |
| Overlaps.ProfileExactly | auth/auth.go:124-150 | the stored profile is what the saved updates come to, throughout, if and only if no write puts back an older value of a key it does not set itself |
| Overlaps.BooksStep | auth/totp.go:282-325 | one step keeps codes left plus codes spent equal to the codes issued if and only if it is not an accepted login or update overwriting changed codes |
| Overlaps.BooksExactly | auth/totp.go:282-325 | over any number of overlapping requests the equation holds throughout if and only if there is no such overwriting |
| Overlaps.CodesWorkOnce | auth/totp.go:299-325 | then each code of a case-distinct activation is accepted at most once |
| Overlaps.OverwriteLetsCodeBack | auth/totp.go:299-325 | the first such overwriting spends a code a second time or lets the next login do so |
| Overlaps.OnceExactly | auth/totp.go:282-325 | over any run of recovery logins and updates no code is accepted twice, then or by one more login, if and only if there is no such overwriting |
| Overlaps.TwoLoginsOneCode | auth/totp.go:282-325 | of two logins with one code, in any order of their reads and writes, one succeeds, and both do if and only if both read first |
| Overlaps.ThreeLoginsTwoCodes | auth/totp.go:282-325 | two overlapping logins with different codes, and a third afterwards uses the first one's code again |
| Tokens.IssuedVerifies | auth/token.go:32-68 | an issued token verifies as its ID during the validity window and never otherwise, whatever underscores the ID holds |
| Tokens.ValidityWindow | auth/token.go:63-67 | with clocks after 1970 the window is [issued, issued + validSecs) |
| Tokens.VerifiedIsSigned | auth/token.go:39-68 | whatever verifies is a signed payload of that ID in its window |
| Tokens.PayloadInjective | auth/token.go:32-35 | what is signed determines account and time |
| SaslLogin.LoginServer.Next | mail/smtp.go:409-428 | one step of the exchange |
| SaslLogin.LoginMeaning | mail/smtp.go:392-428 | the first reply present is the name and the next the password; nothing else logs in |
| Smtp.SmtpSession.Reset | mail/smtp.go:55-58 | drops the message, keeps the login |
| Smtp.SmtpSession.Authenticate | mail/smtp.go:81-90 | logs in the account the name or address and the password name |
| Smtp.SmtpSession.AuthPlain | mail/smtp.go:76-105 | refused on the listener for incoming mail and for anybody else's identity; otherwise the same log-in |
| Smtp.SmtpSession.Mail | mail/smtp.go:136-154 | submission takes only the client's own address |
| Smtp.SmtpSession.Rcpt | mail/smtp.go:157-200 | the five outcomes, and the recipient recorded |
| Smtp.SmtpSession.Data | mail/smtp.go:204-278 | refusals write nothing; otherwise every local copy is filed, the remote recipients are queued, and the reply is positive exactly when all of that worked |
| Smtp.AddrsPartition | mail/smtp.go:239-246 | local and remote addresses together are those of all recipients, repetitions included |
| EndToEnd.OwnCopy | mail/smtp.go:239-250 | each local recipient is due its own copy under its own header, after those of the same account's earlier mentions |
| EndToEnd.LocalRecipientReached | mail/smtp.go:239-256 | after DATA that copy is in its INBOX, unread, at its place among the account's mentions |
| EndToEnd.EveryRecipientServed | mail/smtp.go:239-278 | after a positive answer every local recipient reads its own copy and every remote one is in the entry queued |
| EndToEnd.StillWaiting | mail/relay.go:61-89 | between the body and the entry file nothing the worker does touches the message |
| EndToEnd.RemoteRecipientsReached | mail/relay.go:61-240 | over every later run each recipient queued is delivered to, handed to a bounce or still listed, with the text that was queued |
| EndToEnd.QueuedIsAccountedFor | mail/relay.go:61-240 | the same from the writing of the body file on, whatever the worker does before the entry file is written and whatever happens after |
| EndToEnd.ConversationToSpool | mail/smtp.go:239-278 | in any permitted conversation, a positive answer to DATA queues one entry whose recipients all split, and after any later run of the queue each remote recipient is delivered to, handed to a bounce or still listed |
| SmtpRuns.RunKeeps | mail/smtp.go:53-278 | the session invariant holds over every permitted conversation |
| SmtpRuns.RcptAdds | mail/smtp.go:157-200 | a recipient is recorded only if it splits, and a remote one only for a logged-in submission client with relaying on |
| SmtpRuns.MxNeverRelays | mail/smtp.go:30-33 | the listener for incoming mail never queues anything |
| SmtpRuns.QueuedSenderResolves | mail/relay.go:431-444 | queued recipients all split, and the bounce look-up of the sender ends at the submitter if and only if the ID was spelled as registered or no other equals it ignoring case |
| SmtpRuns.LoginIsFinal | mail/smtp.go:81-90 | a connection keeps the account it logged in as |
| Backoff.Delay | mail/relay.go:244-253 | the loop never overflows and computes min(5 * 2^(n-1), 360) minutes |
| Backoff.MinutesMonotone | mail/relay.go:242-253 | delays never shrink |
| Backoff.FullLadder | mail/config.go:22-27 | eleven waits take 2075 minutes |
| Relay.GroupByDomain | mail/relay.go:255-265 | the groups are exactly the recipients of each domain, in order |
| Relay.GroupingConserves | mail/relay.go:255-265 | no recipient is lost if and only if every address splits |
| Relay.Round | mail/relay.go:198-217 | over the domains in any order, each group ends up sent, deferred or bounced as its domain answered |
| Relay.RoundConserves | mail/relay.go:198-217 | a round accounts for every recipient exactly once if and only if every address splits |
| Relay.DeliverHosts | mail/relay.go:280-295 | the first host that does not fail temporarily decides |
| RelayQueue.Queue.Enqueue | mail/relay.go:61-89 | body, entry, signal, in this order, as a run of the spool; a failed entry write leaves no entry |
| RelayQueue.Queue.Remove | mail/relay.go:99-106 | entry, then body, as a run of the spool |
| RelayQueue.Queue.Attempt | mail/relay.go:188-240 | one delivery round, as a run of the spool |
| RelayQueue.Queue.Conclude | mail/relay.go:219-239 | the four ways a round ends, as a run of the spool |
| RelayQueue.Queue.Flush | mail/relay.go:142-172 | one pass over the directory, as a run of the spool |
| SpoolSafety.StartRound | mail/relay.go:188-197 | starting a round keeps the books and the earliest time |
| SpoolSafety.AnswerDomain | mail/relay.go:198-217 | whatever a domain answers, its recipients move from open to resolved or stay open |
| SpoolSafety.Reschedule | mail/relay.go:232-239 | rescheduling keeps every deferred recipient and never before its time |
| SpoolSafety.GiveUp | mail/relay.go:224-230 | giving up bounces every deferred recipient, not before the full ladder |
| SpoolRuns.RunKeeps | mail/relay.go:61-240 | the invariant holds over every run of client and worker steps, failures and crashes |
| SpoolRuns.NothingLost | mail/relay.go:188-240 | every accepted recipient is delivered, handed to a bounce or still listed, except of a message whose body was there and could not be read; exactly once each when no round was cut short |
| SpoolRuns.DroppingIsHarmless | mail/relay.go:189-194 | an entry without a body had its unlink fail once, and all its recipients were settled |
| SpoolRuns.PatienceAndLimit | mail/relay.go:224-230 | at most twelve attempts and one more for each round cut short, gone after that, and never given up on before 2075 minutes |
| SpoolRuns.EveryEntryIsSeen | mail/relay.go:108-172 | no lost wake-up, and a new entry is due when it is looked at |
| SpoolRuns.SentAsAccepted | mail/relay.go:188-200 | what is sent is the text that was accepted |
| SpoolRuns.UnreadableBodyLoses | mail/relay.go:189-194 | for a message none of whose rounds was cut short, dropping it on a failed read leaves exactly the entry's recipients unaccounted for, so somebody is lost if and only if it names one |
| SpoolRuns.UnreadableBodyLosesAll | mail/relay.go:189-194 | a run of six steps in which every recipient of an accepted message is lost |
| SpoolRuns.CutRoundLosesNobody | mail/relay.go:188-240 | a run in which the entry still names every recipient, all were delivered to before a crash, and the failed read loses nobody |
| SpoolRuns.RemovalKeepsPairs | mail/relay.go:99-106 | a removal leaves an entry without a body if and only if only the entry's unlink fails |

## Left out

- MailStore.Store.CreateMailbox: a mailbox called index.json, or like a body file, clashes with the files of a mailbox "." or ".."; the clash is not modelled, nor are other files of the account's directory. Runs use names with a directory of their own.
- Leniency of the hexadecimal scan in decodeMailboxName: signs and blanks it would accept do not occur in names the server encodes.
- Invalid UTF-8 in names and full Unicode case folding: strings are code points and case is ASCII.
- Torn file writes: a write happens or does not; a failed write leaves the old file. MkdirAll and JSON encoding are part of the write.
- A failed append in DATA leaves the mailbox as it was in `Filing`; a body file left behind by it is covered in `Interleavings`.
- More than one account in `Interleavings`: accounts share no files, so one directory tree stands for each.
- Registration.UserStore.Register: the hash, the profile and the directory order are supplied; bcrypt and the clock are not modelled.
- Registration.RunKeepsIdentities: the user store's calls are taken one at a time, while the second-factor handlers write without the lock they read under; `Overlaps` takes one account's handlers and updates apart, and no identity changes there.
- Totp.RunOk: code generation and the TOTP computation are supplied; ten codes are what the generator makes.
- Smtp.SmtpSession.Data: header blocks, DKIM signing and the client's stamped headers are supplied functions of position or text.
- SmtpRuns.RunKeeps: the SMTP library's own state is only the order of commands it permits.
- RelayQueue.Queue.Flush: one call from start to end; a directory that cannot be listed is the `ListFails` step of `Spool` only.
- Relay.DeliverHosts: DNS look-up, TLS and the SMTP client are one answer per host; the smarthost path is one such answer.
- What bounce writes and whether it can be stored: handing recipients to bounce counts as settled.
- Pop3.Session.Pass: the password check and the TLS rule are supplied; CAPA, STLS, NOOP and the line reader are left out.
- Imap FETCH, SEARCH and STATUS assembly, mailbox objects and error translation: delegated to libraries or single-branch.
- HTTP handlers' status codes, profile validation, listeners, logging and configuration parsing: wrappers.
