# Verified model of the school server's stateful parts

This project models the parts of the school server in which steps depend on one another, and proves what
holds over all their inputs, runs and interleavings.

- **Messenger synchronisation** (`MessengerMessages`, `MessengerProducer`, `MessengerConsumer`,
  `MessengerDelivery`, `MessengerSchoolSync`, `MessengerOutcome`): producers put requests on an internal queue, a consumer validates,
  expands and executes them, and settles every delivery. The program is written as classes; around it stands a
  transition system in which any number of messages is in flight, every awaited call may fail, new messages arrive
  at any time and the database may change between steps.
- **LDAP searches under a lock** (`Locking`, `LdapSearch`): a first-in-first-out lock whose handles can be released
  any number of times, and the searches that use one such lock per URL.
- **Roles** (`RoleResolution`, `RoleCache`, `RoleWrites`): permissions as the closure of a possibly cyclic
  inheritance graph, computed by asynchronous look-ups that complete in any order, the cache in front of it, and roles
  that are written between any two look-ups.
- **Support tokens** (`Jwt`): base64url (section 5 of RFC 4648) and the compact form with three parts (section 7.1
  of RFC 7515).
- **Deletion** (`UserDeletion`, `DeletionOutcome`, `ConcurrentDeletions`, `ClassDeletion`, `StorageTrash`): users replaced by tombstones,
  their data kept in a trashbin, their files moved to expiring keys; any write may fail, and any number of deletions
  may run at once.
- **Registration, news and repair jobs** (`Registration`, `RegistrationOutcome`, `RssNews`, `RssOutcome`,
  `ProviderRepair`): a saga with rollback, a
  mirror of rss feeds, and a repair of wrong storage providers.
- **Migrations** (`ParentsToStudents`, `ParentsResumed`, `ParentsFromStudents`, `ParentRoundTrip`, `ParentsOutcome`,
  `LessonPositions`): parent users folded into their children, in one run or in several that stop, and restored again, and
  the numbering of lessons.
- **Teams** (`Teams`, `TeamsOutcome`), **search index** (`SearchIndex`) and **transfer objects** (`TransferObject`).

A store is a class with the collections as fields. Its methods follow the source statement by statement and are
proved against functions on values; the theorems are lemmas about these functions. The modules named after an
outcome say what each operation ends with and leaves behind in terms of its inputs and the collections alone. Calls that can fail take the
failure as an argument, and clocks, new ids and answers of other systems are arguments too. `Sequences` and
`Wrappers` hold what the modules share.

## Where the code decides

The model follows the code where it differs from its comments or its evident purpose. These are the places, each
with the lemmas that say for all inputs when the purpose is met, and an input for which it is not:

- A school sync asks for one page of users (1000) and one page of courses (10000) only. It covers the school exactly
  if the users fit into their page (`FanOutCoversSchoolIffItFitsOnePage`, `CrowdedSchoolIsNotCovered`) and no
  archived course lies beyond its own (`RemovalCoversArchivedCoursesIffInFirstPage`, `OldSchoolIsNotCovered`).
- `includes` on line 82 of the role model compares object ids by identity, so nothing is ever skipped. Resolution
  then ends exactly when no role that is reached inherits from itself, directly or through others
  (`ResolutionByObjectTerminatesIffNoRoleRepeats`, `SelfInheritanceHasNoBound`); compared as values it always ends. Both readings give the same permissions whenever
  they end.
- `save` on a role runs none of the hooks that clear the cache. Saving a role with its old sub-roles leaves every
  cached answer right exactly under a condition on the lists that reach it (`SaveKeepsAgreementIff`,
  `SavingARoleGoesStale`); saving any role that no cached list reaches does (`UnreachedSaveKeepsAgreement`). No
  service of the server saves an existing role: migrations do, on models of their own and in another process
  (`migrations/1575384761127-add permission for requesting consents.js`, lines 52 and 75;
  `migrations/1575287807413-remove_create_permissions_thuringia.js`, line 39), so a server that runs meanwhile keeps
  its cache.
- The answer of a resolution is stored after the last of its look-ups. If a role is written before that, even by an
  operation that clears the cache, the stored answer is right exactly under a condition on the write
  (`WriteDuringResolutionKeepsAgreementIff`, `DeletionDuringResolutionKeepsAgreementIff`,
  `WritingDuringAResolutionGoesStale`), at whatever look-up it happens (`WriteAmongLookupsKeepsAgreementIff`). The
  answer is that of the roles as they were looked up (`ResolvesWhatWasSeen`): with one role written that of roles
  which did exist, with several possibly not (`MovedPermissionIsMissed`).
- A deletion that fails at overwriting the user keeps the trashbin it has made, and asking again makes another
  (`AtMostOneTrashbinIff`, `RetryMakesASecondTrashbin`). One that fails at removing the account has overwritten the
  user already, so asking again is refused, and the account and the related data stay (`HalfDoneIsNeverFinished`).
- A tombstone user that is made but cannot be set for the school stays, and the next deletion makes another
  (`AtMostOneTombstoneIff`, `FailedUpdateMakesASecondTombstone`). Refusal for lack of permission is such a case, but
  the service checks the same permission first.
- Deletions that run at once make second tombstone users and second trashbins without any failure: as many as look
  before the first of them writes (`TombstonesAreTheEarlyLooks`, `TwoAtOnceMakeTwoTombstones`,
  `TrashbinsAreTheEarlyReads`, `TwoAtOnceMakeTwoTrashbins`).
- A deletion hands on the whole tombstone user instead of its id exactly if it has made and set it
  (`HandsOnTheUserIff`).
- Moving files to the trash deletes the copy of a file along with another file that has the name of this copy. Within
  one request content is lost exactly then (`RequestConservesIff`, `CopyOntoAnotherFileIsLost`); over the slices of a
  batch exactly if the other file is in the same slice or a later one (`BatchTrashesAllIff`, `BatchConservesIff`),
  while one in an earlier slice is safe (`CopyNamedEarlierIsSafe`).
- The rollback of a registration writes the populated roles back, which drops ids of roles that no longer exist, and
  it may fail itself (`FailureChangesNothingIff`, `MissingRoleIsDropped`).
- The comparison of the two passwords reads misspelt fields, and what it returns is no rejection. Which forms it would
  notice says `DifferingIff`; no registration depends on it, nor on the second password (`PasswordsAreNotCompared`).
- News written by a feed that fails later are deleted again, but an internal news item behind them can be taken
  along by the next run (`SecondRunIsIdleIffNoTwin`, `SecondRunCanTakeAnInternalTwin`).
- When the move of the parents stops between the two updates of one parent, a later run no longer finds its
  children, so their consents keep the id of the deleted parent (`ResumedRunMovesIff`, `StoppedRunsMoveIff`,
  `ConsentsKeepADeletedParent`).
- Lessons whose course has the same key as a course group - in practice both null - get no position
  (`TaskIffNotReplaced`, `NullCourseGetsNoTask`).
- Somebody who is invited and then added by id can still accept, and is then listed twice until somebody is added
  by id (`DoubleEntryIffMemberAccepts`, `RunIsDistinctIff`, `AddedAndAcceptedIsListedTwice`).
- A call to add somebody is answered with success without any effect exactly if it is one that no import is started
  for (`SwallowedIff`); every other success is one (`DoneIsDone`).
- Once the user of a member is gone, nobody can be invited, added or accepted any more (`GoneMemberFreezesTheTeam`).
- The transfer-object hook drops the value its transform returns, so dates and object ids that are reached through
  arrays alone stay, as do those in objects without a prototype inside other containers (`HookIsCleanIff`,
  `DateInAListStays`); an invalid date makes it throw at any depth.

## Model

| member | source | states |
|---|---|---|
| MessengerMessages.Expanded | src/services/messengerSync/utils.js:143-164 | looking up ids never changes what a message asks for, and keeps a valid message valid |
| MessengerMessages.FullSyncListsCourse | src/services/messengerSync/utils.js:316-322 | a full sync lists every course the user is a member of, as student, teacher or substitute |
| MessengerMessages.ModeratorFlagsAgree | src/services/messengerSync/utils.js:184-192 | the user is told of a course room with the same moderator flag the course room announces for that member |
| MessengerProducer.ProducedMessagesPassValidation | src/services/messengerSync/producer.js:24-151 | a message any of the producers builds is accepted by the validation exactly when the id it is about is well formed, so none reaches a default branch |
| MessengerProducer.Producer.RequestSyncForEachCourseUser | src/services/messengerSync/producer.js:117-130 | one message per member of the course in order, or a single removal when it is archived |
| MessengerProducer.Producer.RequestSyncForEachTeamUser | src/services/messengerSync/producer.js:52-79 | one message per team member, of the team given or of the stored one; nothing is sent when the team cannot be found |
| MessengerProducer.Producer.RequestSyncForEachSchoolUser | src/services/messengerSync/producer.js:148-151 | one full-sync message for each user of the first page, in order |
| MessengerProducer.Producer.RequestRemovalOfRemovedRooms | src/services/messengerSync/producer.js:133-137 | one removal message for each archived course of the first page |
| MessengerProducer.FanOutCoversSchoolIffItFitsOnePage | src/services/user/services/UsersModelService.js:21-30 | every user of the school is asked for exactly when the school has no more users than the default page of the users service |
| MessengerProducer.CrowdedSchoolIsNotCovered | src/services/user/services/UsersModelService.js:21-30 | a school with one user more than the page, all with object ids, one of whom is not asked for |
| MessengerProducer.RemovalCoversArchivedCoursesIffInFirstPage | src/services/user-group/services/courseModelService.js:7-14 | every archived course of the school is announced as removed exactly when none of them lies beyond the first page |
| MessengerProducer.OldSchoolIsNotCovered | src/services/user-group/services/courseModelService.js:7-14 | a school with one archived course more than the page, one of which is not announced |
| MessengerProducer.ArchivedCourseIsAnnouncedIff | src/services/messengerSync/producer.js:133-137 | an archived course is announced exactly when its place among the courses of the school is in the first page |
| MessengerConsumer.MessageData.ExpandContentIds | src/services/messengerSync/utils.js:143-164 | the four look-ups in place leave the message as the specification expands it |
| MessengerConsumer.Consumer.ExecuteMessage | src/services/messengerSync/consumer.js:118-182 | for every message and every choice of failing calls: what is queued internally, what is sent outside and with which priority, and whether it returns true, false or throws |
| MessengerConsumer.Consumer.HandleMessage | src/services/messengerSync/consumer.js:184-199 | one delivery records exactly one settlement: acknowledged on success, dropped when not retryable or on a redelivered error, requeued on the first error |
| MessengerConsumer.AfterKeepsItemInv | src/services/messengerSync/consumer.js:184-199 | no step of a message takes back a settlement, and none is possible once it is done |
| MessengerConsumer.StepKeepsInv | src/services/messengerSync/consumer.js:118-199 | every step of the queueing system keeps the invariant of every message, and leaves settled messages alone |
| MessengerConsumer.EveryDeliveryIsSettledOnce | src/services/messengerSync/consumer.js:184-199 | in every run with arbitrary arrivals, interleavings and failures: one settlement per finished delivery, at most one requeue per message, one final settlement, and nothing after it |
| MessengerConsumer.StepKeepsMessages | src/services/messengerSync/consumer.js:201-208 | a step changes no other message, takes nothing back and keeps what its message asks for; an arriving message waits at the end, not yet delivered, and sends nothing |
| MessengerConsumer.ArrivalsAreKept | src/services/messengerSync/consumer.js:201-208 | every run keeps the messages it started with and has each arrival among the messages after them |
| MessengerConsumer.AfterLosesWeight | src/services/messengerSync/consumer.js:118-199 | a step of a message, together with all messages it fans out into, weighs less than the message did |
| MessengerConsumer.StepLosesWeight | src/services/messengerSync/consumer.js:118-199 | every step lowers the total weight of the queue, new arrivals aside |
| MessengerConsumer.DrainingTerminates | src/services/messengerSync/consumer.js:118-199 | a run has at most as many steps as its messages weigh, even when schools fan out, fail halfway and fan out again while the database changes |
| MessengerDelivery.HandlingIsARun | src/services/messengerSync/consumer.js:118-199 | what the handler does to one message, under any failures, is a run of the transition system with the same effects |
| MessengerDelivery.StepOwes | src/services/messengerSync/consumer.js:134-182 | no step loses an external message that is still owed; without failures none is owed twice |
| MessengerDelivery.DrainingConserves | src/services/messengerSync/consumer.js:118-199 | over every interleaving the messages sent plus those still owed never decrease, and stay the same without failures |
| MessengerDelivery.FailingRunsStayWithin | src/services/messengerSync/consumer.js:184-199 | whatever fails, what has been sent of an external message plus what its internal messages may still send, retries included, never grows |
| MessengerSchoolSync.DrainingRunExists | src/services/messengerSync/consumer.js:118-199 | every queue can be drained, whatever state it is in |
| MessengerSchoolSync.SchoolSyncReachesEveryone | src/services/messengerSync/consumer.js:134-145 | draining the message of an activated school in any interleaving puts exactly one addUser per user and one removeRoom per archived course, of priority 0, on the external queue; with retries at least these as long as no message fails twice |
| MessengerSchoolSync.SchoolSyncSendsAtMostTwice | src/services/messengerSync/consumer.js:134-199 | over every interleaving and all failures the message of a school leads to at most two addUser per user and one removeRoom per archived course |
| MessengerOutcome.ValidIffWellFormed | src/services/messengerSync/consumer.js:20-112 | a message is valid exactly when the field its action looks at holds 24 hexadecimal digits, a school sync is full, and a user sync is full or brings courses or teams |
| MessengerOutcome.IllFormedLeadsToNothing | src/services/messengerSync/consumer.js:118-124 | a message that is not valid is dropped without any effect, whatever fails; one that cannot be parsed throws |
| MessengerOutcome.FailuresCutShort | src/services/messengerSync/consumer.js:134-182 | a failing call leaves a first part of the effects there would have been without it, sends nothing, and makes the handler throw |
| MessengerOutcome.SettledByOutcome | src/services/messengerSync/consumer.js:184-199 | a message is requeued exactly for an error on its first delivery, and acknowledged exactly when it was executed |
| MessengerOutcome.NothingWithoutMessenger | src/services/messengerSync/consumer.js:126-130 | a message that brings a school without the messenger, or brings none and none of whose schools - its own, or else those of the user, course and team it names - has the messenger among its features, queues and sends nothing, whatever fails, and is rejected when its ids can be looked up |
| MessengerOutcome.NothingIsSentWithoutMessenger | src/services/messengerSync/consumer.js:126-130 | over every interleaving and all failures a queue of such messages puts nothing on either queue |
| MessengerOutcome.NoStepSendsWithoutMessenger | src/services/messengerSync/consumer.js:126-130 | and in a queue with any others no step of such a message does, at any time |
| MessengerOutcome.EverythingIsFound | src/services/messengerSync/utils.js:143-164 | a message leads to the school of its own id, or else of its user, its course or its team, in this order, and each of these is found exactly when it exists |
| MessengerOutcome.WhatIsBroughtIsKept | src/services/messengerSync/utils.js:143-164 | what a message brings is not looked up again |
| MessengerOutcome.RemovalsAreAnnounced | src/services/messengerSync/utils.js:324-397 | a user, course or team is announced as removed under its own id, with priority 0 in a school sync and 2 otherwise, whether or not it still exists |
| MessengerOutcome.CourseIsAnnounced | src/services/messengerSync/utils.js:370-387 | a course is announced under its name with all its students, teachers and substitutes in order, the latter two as moderators; for a missing one the handler throws |
| MessengerOutcome.TeamIsAnnounced | src/services/messengerSync/utils.js:333-358 | a team is announced with exactly the members of its own school and of schools with the messenger, those who lead it as moderators; for a missing one the handler throws |
| MessengerOutcome.UserIsAnnounced | src/services/messengerSync/utils.js:246-322 | a user is announced with one message of the right priority; for a missing one the handler throws |
| MessengerOutcome.UserIsTold | src/services/messengerSync/utils.js:246-322 | what a user is told: account, name, the welcome for its roles, and exactly the rooms of its courses and teams - all of them in a full sync, else those brought - of the announcements and of the staff, each with its moderator flag |
| MessengerOutcome.BroughtIsAnnounced | src/services/messengerSync/utils.js:143-387 | a user, course or team that the message brings, along with its school, is announced as it was brought |
| MessengerOutcome.RoomsAreInOrder | src/services/messengerSync/utils.js:277-311 | courses come first, then teams, the announcements and the staff room |
| MessengerOutcome.SchoolIsFannedOut | src/services/messengerSync/consumer.js:134-139 | a school whose users and courses fit their pages asks for a full sync of each of its users and the removal of each of its archived courses, and for nothing else |
| MessengerOutcome.MembersAreAskedFor | src/services/messengerSync/producer.js:52-130 | the message for each member of a team or course brings this team or course alone; an archived course is removed instead |
| MessengerOutcome.RequestedRemovalsGoOut | src/services/messengerSync/producer.js:34-99 | from the producer to the external queue: what is removed goes out under the id it was removed with |
| MessengerOutcome.RequestedRoomsGoOut | src/services/messengerSync/producer.js:44-107 | a requested course or team goes out as its own room |
| MessengerOutcome.RequestedUsersGoOut | src/services/messengerSync/producer.js:24-79 | a requested user goes out with all its rooms, or with the one course or team it was requested for |
| MessengerOutcome.SchoolSyncTellsEveryone | src/services/messengerSync/consumer.js:134-151 | draining a school sync in any interleaving: everybody of the school is told of exactly its rooms, every archived course goes out as removed, with priority 0, and nothing else is sent |
| Locking.StepKeepsInv | src/services/ldap/lockingQueue.js:39-68 | every request and release keeps the invariant, and never withdraws a grant |
| Locking.EveryRunIsFairAndExclusive | src/services/ldap/lockingQueue.js:39-68 | in every interleaving at most one handle is granted and unreleased, waiting implies locked, grants follow the order of the requests, and nobody waits once all granted handles are released |
| Locking.ReleaseHandsOver | src/services/ldap/lockingQueue.js:44-54 | the holder's first release grants the first waiter; every other release of a handle changes nothing |
| Locking.StepLeavesOthers | src/services/ldap/lockingQueue.js:39-68 | a step of one client never takes the lock from another |
| Locking.LockingQueue.constructor | src/services/ldap/lockingQueue.js:17-20 | a new queue is free and nobody waits |
| Locking.LockingQueue.GetLock | src/services/ldap/lockingQueue.js:39-68 | a new handle is granted at once exactly when the lock is free, and queued last otherwise |
| Locking.LockingQueue.ReleaseLock | src/services/ldap/lockingQueue.js:44-54 | the closure of a handle: its first call frees the lock or grants the first waiter, every later one does nothing |
| LdapSearch.LdapService.SearchCollection | src/services/ldap/index.js:234-242 | a search requests the lock of its URL, which is made when it is first used |
| LdapSearch.LdapService.HandleError | src/services/ldap/index.js:242-246 | an error releases the lock and rejects the search, unless it is settled already |
| LdapSearch.LdapService.OnSearchEntry | src/services/ldap/index.js:256-262 | an entry is appended to the collected objects and touches no lock |
| LdapSearch.LdapService.OnEnd | src/services/ldap/index.js:263-270 | an end with status 0 resolves with the objects, any other is handled as an error; the lock is released in either case, a second time after an error |
| LdapSearch.EventTouchesOwnLockOnly | src/services/ldap/index.js:240-273 | an event changes no lock but that of its own URL, none at all once the search has given it back, and ends no other search |
| LdapSearch.ActiveIsExclusive | src/services/ldap/index.js:234-275 | two searches that use the server at the same time use different URLs |
| LdapSearch.StartOpensASearch | src/services/ldap/index.js:234-242 | a new search is empty and unsettled, uses the server at once exactly when nobody holds the lock of its URL, waits last for it otherwise, and touches no other lock |
| LdapSearch.EventSettles | src/services/ldap/index.js:240-273 | the first error or failed end rejects a search, a first successful end resolves it with its objects, an entry is appended, and no other search changes |
| LdapSearch.SecondReleaseFreesNobody | src/services/ldap/index.js:234-275 | in every run, after its error or end none of the further events of a search changes a lock or its outcome, and each URL serves one search at a time |
| LdapSearch.SearchCollectsItsEntries | src/services/ldap/index.js:241-262 | until its error or end a search collects exactly its own entries in order, whatever other searches do |
| LdapSearch.EndResolvesWithItsEntries | src/services/ldap/index.js:263-270 | a successful end resolves with exactly the entries received |
| RoleResolution.EveryFinishedRunResolves | src/services/role/model.js:65-98 | for every order in which look-ups complete, a finished resolution holds exactly the permissions of all reachable roles, and has failed exactly when a reachable role is missing |
| RoleResolution.FinishedIsClosure | src/services/role/model.js:65-98 | the invariants of the traversal determine its result once nothing is pending |
| RoleResolution.ResolutionByValueTerminates | src/services/role/model.js:70-88 | compared as values, ids are resolved within a bound on any graph, with cycles, sharing, duplicate sub-roles and unrecorded roots; every look-up lowers unprocessed ids first and pending look-ups second |
| RoleResolution.ResolutionByObjectTerminatesIffBounded | src/services/role/model.js:81-86 | compared by identity, the number of look-ups is bounded exactly when every chain of inheritance from the roots is; otherwise no run ends |
| RoleResolution.BoundedIffNoRoleRepeats | src/services/role/model.js:32-33 | every chain of inheritance from the roots is bounded exactly when none comes to a role twice |
| RoleResolution.ResolutionByObjectTerminatesIffNoRoleRepeats | src/services/role/model.js:81-86 | so, compared by identity, the number of look-ups is bounded exactly when no role that is reached inherits from itself, directly or through others |
| RoleResolution.SelfInheritanceHasNoBound | src/services/role/model.js:81-86 | a role that inherits from itself keeps a resolution by identity going for ever |
| RoleResolution.UnboundedNeverFinishes | src/services/role/model.js:81-86 | with an endless chain pending, no run by identity ever has nothing pending |
| RoleResolution.GroundedLimitsPaths | src/services/role/model.js:32-33 | being bounded means that paths of inheritance have limited length |
| RoleCache.IndexIsInjective | src/utils/cache.js:18-24 | two lists of ids of 24 characters with the same key are the same list |
| RoleCache.IndexOfOtherIdsCollides | src/utils/cache.js:18-24 | ids of other lengths can share a key |
| RoleCache.Cache.Clear | src/utils/cache.js:13-16 | nothing updated before is served any more |
| RoleCache.Cache.CreateMongooseIndex | src/utils/cache.js:18-24 | the loop concatenates the ids in order |
| RoleCache.Cache.Update | src/utils/cache.js:26-32 | the value becomes the latest one of its key, from the time given |
| RoleCache.Cache.Get | src/utils/cache.js:34-38 | a value is served exactly when its key was updated since the last clear and the latest update is at most the interval old, and it is the value of that update |
| RoleCache.UpdateKeepsAgreement | src/services/role/model.js:94-97 | storing a freshly computed answer keeps every possible answer equal to the closure of the current roles |
| RoleCache.NewRoleKeepsClosure | src/services/role/model.js:65-98 | a new role cannot change an answer whose reachable roles all exist |
| RoleCache.NewRoleKeepsAgreement | src/services/role/model.js:41-56 | so creating a role, which clears nothing, leaves every cached answer right |
| RoleCache.ResolveInAnyOrder | src/services/role/model.js:65-98 | a loop that completes any pending look-up next ends with the closure, and fails exactly when a role is missing |
| RoleCache.RoleModel.ResolvePermissions | src/services/role/model.js:65-98 | cached or not, the answer of a call that no write interrupts is the closure of the roles as they are now; a failing resolution leaves the cache alone; writes that interrupt it are the subject of `RoleWrites` |
| RoleCache.RoleModel.WriteAndClear | src/services/role/model.js:41-56 | every listed operation changes the roles and clears the cache |
| RoleCache.RoleModel.Create | src/services/role/model.js:41-56 | creating a role keeps every cached answer right although nothing is cleared |
| RoleCache.SaveKeepsClosureIff | src/services/role/model.js:41-98 | saving a role with its old sub-roles changes the answer for a list that reaches it exactly when it grants something new to the list or drops something no other reachable role grants |
| RoleCache.SaveKeepsAgreementIff | src/services/role/model.js:41-56 | such a save, which clears nothing, leaves every cached answer right exactly when this is so for no cached list that reaches the role |
| RoleCache.UnreachedSaveKeepsAgreement | src/services/role/model.js:41-56 | any save, with other sub-roles too, leaves every cached answer right when no cached list reaches the role |
| RoleCache.SavingARoleGoesStale | src/services/role/model.js:41-56 | the one role of a list loses its one permission, and the cache still grants it |
| RoleCache.WriteDuringResolutionKeepsAgreementIff | src/services/role/model.js:94-97 | when a role is written after the look-ups of a resolution and before its update of the cache, and keeps its sub-roles, the cache is right exactly if the resolution does not reach the role, or the new permissions were granted anyway and the dropped ones still are |
| RoleCache.DeletionDuringResolutionKeepsAgreementIff | src/services/role/model.js:94-97 | when a role is deleted meanwhile, exactly if the resolution does not reach it |
| RoleCache.UnreachedWriteDuringResolutionKeepsAgreement | src/services/role/model.js:94-97 | whatever becomes of a role that is not reached, with other sub-roles too, the cache is right |
| RoleCache.WritingDuringAResolutionGoesStale | src/services/role/model.js:65-98 | a write that clears the cache between the look-ups and the update leaves a wrong answer |
| RoleWrites.ResolvesWhatWasSeen | src/services/role/model.js:65-98 | with roles written between any look-ups, a finished resolution holds the closure of the roles as its look-ups have found them, and has failed exactly when one of these is missing |
| RoleWrites.OneRoleIsSeenWhole | src/services/role/model.js:65-98 | while one role is written, however often, the answer is that of the roles at the moment it was looked up |
| RoleWrites.WriteAmongLookupsKeepsAgreementIff | src/services/role/model.js:65-98 | a role written at any moment of a resolution leaves the cache right if its look-ups have found the new role; if they have found the old one, exactly under the condition on the write; and if some have found the one and some the other, exactly if the dropped permissions are still granted |
| RoleWrites.MovedPermissionIsMissed | src/services/role/model.js:65-98 | two writes that move a permission, which is granted throughout and which a resolution among them does not find |
| Jwt.DecodesIffEncoded | src/services/account/services/SupportJWTService.js:30-42 | a string decodes to some bytes exactly when it is their encoding, so encoding is injective and only canonical strings decode |
| Jwt.Base64UrlSpellsSextets | src/services/account/services/SupportJWTService.js:30-42 | the encoding consists of the alphabet of section 5 of RFC 4648 and spells the six-bit groups of the bytes |
| Jwt.Base64UrlAvoids | src/services/account/services/SupportJWTService.js:34-39 | neither padding nor a dot occurs in an encoding |
| Jwt.Base64UrlLength | src/services/account/services/SupportJWTService.js:34-35 | the length tells how many padding characters were dropped |
| Jwt.TokenHasItsThreeParts | src/services/account/services/SupportJWTService.js:85-96 | a token splits at its dots into exactly the encoded header, payload and signature, which decode to what went in |
| Jwt.TokensAreInjective | src/services/account/services/SupportJWTService.js:85-96 | equal tokens have equal headers, payloads and signatures |
| Jwt.EncodingSpellsTheBits | src/services/account/services/SupportJWTService.js:30-42 | character i of an encoding is that of the URL-safe alphabet whose number the bits from 6i on spell, with zeros behind the last byte |
| StorageTrash.Bucket.CopyAll | src/components/fileStorage/repo/fileStorageProvider.repo.js:65-70 | the copies complete in some order of the list, each made from what is there by then, and all succeed exactly when each finds its file and does not fail |
| StorageTrash.Bucket.MoveFilesToTrash | src/components/fileStorage/repo/fileStorageProvider.repo.js:59-73 | one request: rejected above 1000 files, and else the copies in some order and, when all succeed, the deletion |
| StorageTrash.Bucket.MoveFilesToTrashBatch | src/components/fileStorage/repo/fileStorageProvider.repo.js:82-90 | the requests for the slices one after the other, up to the first that fails, for every list |
| StorageTrash.RequestMovesIff | src/components/fileStorage/repo/fileStorageProvider.repo.js:59-73 | unless a file is named like the copy of another, up to 1000 files are moved exactly when all exist and nothing fails, in whatever order the copies complete; a failure leaves every original |
| StorageTrash.RequestConservesIff | src/components/fileStorage/repo/fileStorageProvider.repo.js:59-73 | a request that moves existing files keeps their content exactly when none is named like the copy of another |
| StorageTrash.BatchMovesIff | src/components/fileStorage/repo/fileStorageProvider.repo.js:82-90 | unless the copy of a file is named in its slice or a later one, the files are moved exactly when every slice fits a request, all exist, none is in two slices and nothing fails; in every other case no content is lost and no other key changes |
| StorageTrash.BatchTrashesAllIff | src/components/fileStorage/repo/fileStorageProvider.repo.js:82-90 | existing files listed in one slice each end up under their expiring keys exactly when no copy of a file is named in its slice or a later one |
| StorageTrash.BatchConservesIff | src/components/fileStorage/repo/fileStorageProvider.repo.js:82-90 | and, unless two of them hold the same, their content is kept exactly then |
| StorageTrash.CopyNamedEarlierIsSafe | src/components/fileStorage/repo/fileStorageProvider.repo.js:82-90 | two files of which the one named like the copy of the other is moved by an earlier request |
| StorageTrash.SlicesFitIff | src/components/fileStorage/repo/fileStorageProvider.repo.js:59-62 | every slice fits a request exactly when the limit is at most 1000, or the whole list is |
| StorageTrash.TrashedContents | src/components/fileStorage/repo/fileStorageProvider.repo.js:33-50 | key by key: the content is under the expiring key, marked as expiring; under the id is at most the copy of another file; everything else is as before |
| StorageTrash.TrashedInBatches | src/components/fileStorage/repo/fileStorageProvider.repo.js:82-90 | moving in two batches is moving at once, as long as the second holds no copy of a file |
| StorageTrash.CopyOntoAnotherFileIsLost | src/components/fileStorage/repo/fileStorageProvider.repo.js:33-50 | two files of which one has the name of the copy of the other, moved by one request, whichever copy completes first |
| StorageTrash.FailureConserves | src/components/fileStorage/repo/fileStorageProvider.repo.js:82-90 | complete batches followed by an interrupted request have lost nothing |
| StorageTrash.BatchesPartition | src/components/fileStorage/repo/fileStorageProvider.repo.js:84-88 | the slices concatenate to the input, none is empty, and all but the last are full |
| StorageTrash.BatchIsAllOrSafe | src/components/fileStorage/repo/fileStorageProvider.repo.js:33-90 | files that are listed once, none of which is named like the copy of another, are all moved exactly when they exist, no request names more than 1000 and no call fails; then each is there as its expiring copy alone; an error anywhere loses no content, and no other key changes |
| ClassDeletion.ClassStore.RemoveUserFromClasses | src/components/user-group/repo/classes.repo.js:94-100 | the user is pulled from the students and the teachers of every class |
| ClassDeletion.ClassStore.DeleteUserDataFromClasses | src/components/user-group/uc/deleteUserData.uc.js:18-33 | the data returned name the classes as they were, and nothing is written when there are none |
| ClassDeletion.TrashNamesTheClasses | src/components/user-group/uc/deleteUserData.uc.js:12-16 | a class is listed as student or teacher class exactly when the user was one of its students or teachers |
| ClassDeletion.NothingIsRecordedIff | src/components/user-group/uc/deleteUserData.uc.js:18-33 | nothing is recorded exactly when no class has the user as student or teacher |
| ClassDeletion.RemovalIsCompleteAndReversible | src/components/user-group/uc/deleteUserData.uc.js:18-33 | afterwards no class mentions the user, nobody else has left, and putting the user back from the trashbin restores the students and teachers of every class |
| UserDeletion.Deletion.ReplaceUserWithTombstone | src/components/user/uc/users.uc.js:74-86 | two writes that can fail one after the other: the user becomes a tombstone of the same school, and then the account found first is removed |
| UserDeletion.Deletion.DeleteRegistrationPins | src/components/user/uc/users.uc.js:161-170 | the pins of the user are deleted, and then those of each parent for which no call fails; a failure goes no further |
| UserDeletion.Deletion.GetOrCreateTombstoneUserId | src/components/user/uc/users.uc.js:139-152 | the tombstone user set for the school is used, or one is made and then set; when setting is refused or fails the user made stays |
| UserDeletion.Deletion.DeleteUser | src/components/user/uc/users.uc.js:154-179 | the whole sequence for every caller and every failing step: what is written, where it stops, and what is handed on |
| UserDeletion.Deletion.DeleteUserRelatedData | src/components/user/uc/users.uc.js:50-70 | the newest trashbin receives one entry per delete function in order, whether it returns or throws, up to the first unknown facade |
| UserDeletion.OneEntryPerFunction | src/components/user/uc/users.uc.js:50-70 | the number of entries is the number of delete functions |
| UserDeletion.PushedTwice | src/components/user/repo/trashbin.repo.js:23-33 | pushing twice is pushing the concatenation |
| UserDeletion.DeletionConservesUserAndAccount | src/components/user/uc/users.uc.js:154-179 | whichever step fails: before the trashbin nothing has changed; then user and account are in the trashbin, the user is also live exactly when the overwriting failed, the account exactly when that or its removal failed, and no other user or account changes |
| UserDeletion.TrashbinsAreCounted | src/components/user/uc/users.uc.js:24-86 | over any sequence of deletions, how many trashbins a user has and whether it is deleted follow from the requests: one trashbin for each that gets that far, up to the first that overwrites the user |
| UserDeletion.AtMostOneTrashbinIff | src/components/user/uc/users.uc.js:74-86 | over any sequence a user never gets a second trashbin exactly when no deletion that fails at overwriting it is followed by one that makes a trashbin |
| UserDeletion.RetryMakesASecondTrashbin | src/components/user/uc/users.uc.js:74-86 | a deletion that fails at overwriting, and the same again |
| UserDeletion.TombstonesAreCounted | src/components/user/uc/users.uc.js:139-152 | over any sequence a school gets one tombstone user for each request that gets to making one while none is set |
| UserDeletion.AtMostOneTombstoneIff | src/components/user/uc/users.uc.js:139-152 | over any sequence a school never gets a second tombstone user exactly when no request that makes one without being able to set it is followed by another that makes one |
| UserDeletion.OneTombstoneIfAllCanSet | src/components/user/uc/users.uc.js:139-152 | at most one when the update of the school works and every caller has the permission |
| UserDeletion.FailedUpdateMakesASecondTombstone | src/components/user/uc/users.uc.js:145-149 | a first deletion whose update of the school fails, and a second one |
| UserDeletion.ForbiddenIff | src/components/school/uc/school.facade.js:17-20 | setting the tombstone user is refused exactly for a caller of another school without all rights, after the user has been made |
| UserDeletion.HandsOnTheUserIff | src/components/user/uc/users.uc.js:139-152 | the whole user is handed on exactly by a deletion that makes the tombstone user and sets it; whichever finds it set hands on its id |
| UserDeletion.DeletedForGood | src/components/user/uc/users.uc.js:27-29 | whoever is deleted stays deleted: every further request for the user ends before writing, so an account that is still there stays |
| UserDeletion.HalfDoneIsNeverFinished | src/components/user/uc/users.uc.js:74-86 | after a deletion that fails at removing the account, no sequence of requests removes the account or gets to the related data |
| UserDeletion.RelatedDataAreRecorded | src/components/user/uc/users.uc.js:50-70 | the entry of function j of facade i stands in the newest trashbin behind what was there and one entry for each function before it, and holds exactly the scope and data returned, or the facade, the function and the error; nothing else changes, up to the first unknown facade |
| DeletionOutcome.RefusedDeletion | src/components/user/uc/users.uc.js:154-158 | which deletions end before writing, and how |
| DeletionOutcome.DeletionLeaves | src/components/user/uc/users.uc.js:154-171 | any other deletion has put the user and its first account into a new trashbin behind the others; unless it fails at overwriting, the user is a nameless one of the same school; unless it fails at the account either, that account and exactly the pins of the user and of the parents that can be deleted are gone |
| DeletionOutcome.TombstoneIsFoundOrMade | src/components/user/uc/users.uc.js:139-152 | the tombstone user of the school is found, or made under its name in the tombstone school and set if the caller is of the school or may do anything, with the outcome for every failure |
| DeletionOutcome.PinsLeftAre | src/components/user/uc/users.uc.js:161-170 | a pin is gone exactly if it belongs to the user, or to a parent whose pins can be deleted, and the user's own could be; every other one is left as often as before |
| ConcurrentDeletions.AloneIsDelete | src/components/user/uc/users.uc.js:154-179 | the calls of a deletion without others in between do what the sequential program does |
| ConcurrentDeletions.TrashbinsAreTheEarlyReads | src/components/user/services/user.service.v2.js:40 | in every interleaving that comes to an end, with any failures, the deletions of a user have made as many trashbins as read the user, and get that far, before the first overwrites it |
| ConcurrentDeletions.TwoAtOnceMakeTwoTrashbins | src/components/user/services/user.service.v2.js:40 | two requests for one user, none of which fails, that make two |
| ConcurrentDeletions.TombstonesAreTheEarlyLooks | src/components/user/services/user.service.v2.js:40 | and a school has got as many tombstone users as deletions look at it, and get that far, before the first sets one |
| ConcurrentDeletions.TwoAtOnceMakeTwoTombstones | src/components/user/services/user.service.v2.js:40 | two requests for users of a school, none of which fails, that make two |
| Registration.RegistrationService.PopulateUser | src/services/user/registration.js:24-80 | exactly one user must have the hash; the old and the merged record are returned together |
| Registration.RegistrationService.RegisterUser | src/services/user/registration.js:127-320 | the whole saga for every failing step, those of the rollback included: the outcome and the store it leaves |
| Registration.FailureChangesNothingIff | src/services/user/registration.js:290-319 | whichever step fails, the store is what it was before exactly when no account is left behind and the candidate was not written, should writing it back fail, or else has no role that does not exist |
| Registration.FailureLeaves | src/services/user/registration.js:290-319 | what a registration leaves that does not succeed: the user as before, without missing roles, or as written, and the account only if it cannot be removed |
| Registration.WorkingRollbackRestores | src/services/user/registration.js:290-319 | with a rollback that works the store differs in the dropped roles only |
| Registration.MissingRoleIsDropped | src/services/user/registration.js:290-319 | a user whose only role does not exist is refused, and loses it |
| Registration.DifferingIff | src/services/user/registration.js:202-204 | an error is returned exactly when no earlier check objects and the misspelt fields differ |
| Registration.PasswordsAreNotCompared | src/services/user/registration.js:202-204 | neither the second password nor the misspelt fields have any effect on the outcome or the store |
| Registration.SuccessChangesOneUser | src/services/user/registration.js:82-288 | when every guard passes and no step fails, exactly one user has changed, the only one with the hash, which has the names of the form and no hash any more, and one activated account and one consent for it were added |
| Registration.StepUsesUpHash | src/services/user/registration.js:77-98 | a registration takes the hash from one user when it succeeds or cannot write the user back, and nothing else changes who has it |
| Registration.EachHashSucceedsOnce | src/services/user/registration.js:127-320 | over any sequence of registrations a hash is used up as often as users lose it, and succeeds at most as often, so at most once when hashes are unique; exactly as often when every user can be written back |
| RegistrationOutcome.RegisteredRecord | src/services/user/registration.js:24-98 | a registered user has the names and the parent of the form, the age of before or else that of the form, the email and school of before, no hash, and exactly those of its roles that exist, each once |
| RegistrationOutcome.RegisteredAccountAndConsent | src/services/user/registration.js:236-282 | its account has the stored address and the password of the form, and its consent what the parent has agreed to, or without one the user |
| RegistrationOutcome.OutcomeIs | src/services/user/registration.js:127-288 | what every registration ends with: an invalid link, no single user with the hash, the first objection by role, age, address or pin, the step that failed, or success |
| RegistrationOutcome.RepopulatedKeepsExisting | src/services/user/registration.js:290-295 | the user that is written back has its roles that exist, and is otherwise unchanged |
| RssNews.Job.HandleFeed | src/jobs/rss-news.js:16-39 | the items are written in order until an error, and the ids count only when there was none |
| RssNews.Job.HandleFeeds | src/jobs/rss-news.js:44-57 | feeds that fail are counted, and the others go on |
| RssNews.Job.ProcessSchool | src/jobs/rss-news.js:41-62 | all writes, and then, unless the school cannot be saved, the deletion of the rss news that were not checked |
| RssNews.UpsertAllMirrors | src/jobs/rss-news.js:19-36 | the writes update the first match of every guid in place with its last fields, or insert it, and change nothing else |
| RssNews.NewsMirrorTheFeeds | src/jobs/rss-news.js:41-62 | afterwards the school's rss news and the guids of the feeds that succeeded correspond one to one, with the last item in feed order determining the content |
| RssNews.NextRunMakesUpForAFailedSave | src/jobs/rss-news.js:59-61 | a run whose school cannot be saved and a second one with the same feeds leave the news one complete run would have left |
| RssNews.OtherNewsStay | src/jobs/rss-news.js:61 | news of other schools and internal news without a written guid stay exactly as they are |
| RssNews.NoForeignNewsAppear | src/jobs/rss-news.js:21-34 | what appears is rss news of this school |
| RssNews.KeptStandsFirst | src/jobs/rss-news.js:21-35 | the next search for a guid that was kept finds its rss news, not an internal one |
| RssNews.SecondRunIsIdleIffNoTwin | src/jobs/rss-news.js:41-62 | a second run with the same feeds changes no news exactly when no internal news item stands behind the first match of a guid that only failing feeds write |
| RssNews.SecondRunCanTakeAnInternalTwin | src/jobs/rss-news.js:51-61 | an example of an internal news item that the second run deletes |
| RssOutcome.NewsShowTheLastItems | src/jobs/rss-news.js:16-61 | after a run every guid a feed has delivered has its news, every rss news item of the school is of such a guid, and it shows title, content and date of the last item with its guid over all feeds, and the description of that feed |
| RssOutcome.UnsavedRunShowsTheLastItems | src/jobs/rss-news.js:19-59 | when the school cannot be saved, every guid that was reached shows its last item, and no news are lost |
| RssOutcome.UnreachedNewsStay | src/jobs/rss-news.js:61 | news of other schools, and internal news no item with their guid was reached of, stay |
| RssOutcome.FailuresAreTheStopped | src/jobs/rss-news.js:51-56 | as many feeds are reported as an error has stopped |
| ProviderRepair.Migration.GetSchoolsWithoutBuckets | migrations/1609942742732-fixStorageProviderInconsistencies.js:50-61 | exactly the schools whose bucket the provider does not list |
| ProviderRepair.Migration.GetSchoolsWithWrongProviders | migrations/1609942742732-fixStorageProviderInconsistencies.js:122-137 | exactly the schools that refer to a listed provider which does not hold their bucket |
| ProviderRepair.Migration.GetProviderForSchool | migrations/1609942742732-fixStorageProviderInconsistencies.js:83-89 | the first provider that holds the bucket, or none |
| ProviderRepair.ProviderForFindsOne | migrations/1609942742732-fixStorageProviderInconsistencies.js:83-89 | no provider is found exactly when no provider holds the bucket |
| ProviderRepair.Migration.FindProvidersForSchools | migrations/1609942742732-fixStorageProviderInconsistencies.js:145-154 | every school is listed under the provider found for it, and under no other |
| ProviderRepair.Migration.UpdateProvidersForSchools | migrations/1609942742732-fixStorageProviderInconsistencies.js:96-114 | the entries, in any order, assign each listed school its provider; those without one are left alone |
| ProviderRepair.Migration.Up | migrations/1609942742732-fixStorageProviderInconsistencies.js:156-185 | every school becomes what the repair specifies for it, and schools keep their places |
| ProviderRepair.RepairIsCompleteAndMinimal | migrations/1609942742732-fixStorageProviderInconsistencies.js:156-185 | a school refers to a holder of its bucket afterwards exactly when it had a listed provider and its bucket exists; the others are untouched, and a second run changes nothing |
| ProviderRepair.WrongSchoolsGetTheFirstHolder | migrations/1609942742732-fixStorageProviderInconsistencies.js:83-137 | a school whose listed provider lacks the bucket named after it is assigned the first provider with this bucket; every other school, and one without any, stays as it is |
| ParentsToStudents.Database.FindBulkParents | migrations/1601022564938-copy-parents-data-into-children-entities-and-delete-parent-users.js:80 | at most the limit of parent users, each once, and none only when there is none |
| ParentsToStudents.Database.GetStudentsForParent | migrations/1601022564938-copy-parents-data-into-children-entities-and-delete-parent-users.js:89-93 | exactly the users that still refer to the parent by id |
| ParentsToStudents.Database.UpdateStudentsParentData | migrations/1601022564938-copy-parents-data-into-children-entities-and-delete-parent-users.js:95-117 | the two updates give the listed users the contact data and clear the parent ids of their consents; the first may be made without the second |
| ParentsToStudents.Database.DeleteParentUsersByIds | migrations/1601022564938-copy-parents-data-into-children-entities-and-delete-parent-users.js:82-87 | exactly the users with the ids are gone, and the others keep their order |
| ParentsToStudents.Database.BulkMigrateParentsToStudents | migrations/1601022564938-copy-parents-data-into-children-entities-and-delete-parent-users.js:119-144 | for a connection that may break at any call: where it stops and what is done by then; without a break it ends, fails only without a parent role, and otherwise leaves the other users with the data of the first of their parents in the order of processing, which lists every parent user once |
| ParentsToStudents.BatchMakesProgress | migrations/1601022564938-copy-parents-data-into-children-entities-and-delete-parent-users.js:124-139 | every batch deletes somebody and keeps the correspondence with the users of before |
| ParentsToStudents.ParentUsersAreGone | migrations/1601022564938-copy-parents-data-into-children-entities-and-delete-parent-users.js:119-144 | afterwards nobody has the parent role, and exactly the parent users are missing |
| ParentsToStudents.StudentsCarryTheirFirstParent | migrations/1601022564938-copy-parents-data-into-children-entities-and-delete-parent-users.js:95-117 | a user with a parent user carries the data of the parent processed first and cleared consents; any other is unchanged |
| ParentsToStudents.Database.ProcessBatch | migrations/1601022564938-copy-parents-data-into-children-entities-and-delete-parent-users.js:124-139 | a batch that stops has processed some of its parents, perhaps half of another, and deleted none |
| ParentsResumed.ResumedUser | migrations/1601022564938-copy-parents-data-into-children-entities-and-delete-parent-users.js:119-144 | a second run finishes what the first has left of a user |
| ParentsResumed.OverallLists | migrations/1601022564938-copy-parents-data-into-children-entities-and-delete-parent-users.js:119-144 | both runs together process every parent user once |
| ParentsResumed.ResumedRunMovesIff | migrations/1601022564938-copy-parents-data-into-children-entities-and-delete-parent-users.js:119-144 | for a run that stopped anywhere and a complete second one: the result is that of one complete run exactly when the first did not stop between the two updates of a parent with a child whose consents name a parent and which no earlier parent had taken |
| ParentsResumed.StoppedRunsMoveIff | migrations/1601022564938-copy-parents-data-into-children-entities-and-delete-parent-users.js:119-144 | for any number of runs that stopped anywhere and a complete last one: the result is that of one complete run exactly when none of them stopped between the two updates for such a child |
| ParentsResumed.ConsentsKeepADeletedParent | migrations/1601022564938-copy-parents-data-into-children-entities-and-delete-parent-users.js:95-117 | a child whose consents no run clears any more |
| ParentsFromStudents.Database.FindBulkStudentsWithParentData | migrations/1601022564938-copy-parents-data-into-children-entities-and-delete-parent-users.js:146-150 | at most the limit of users that carry parent data, each once, and none only when there is none |
| ParentsFromStudents.Database.UpsertParent | migrations/1601022564938-copy-parents-data-into-children-entities-and-delete-parent-users.js:165-186 | the record with the email and the role is updated and gets one more child, or is made |
| ParentsFromStudents.Database.LinkStudent | migrations/1601022564938-copy-parents-data-into-children-entities-and-delete-parent-users.js:187-191 | the two updates make the user and its consents refer to the record |
| ParentsFromStudents.RecordsGrow | migrations/1601022564938-copy-parents-data-into-children-entities-and-delete-parent-users.js:165-186 | after every student there is exactly one record per email met, named as its last student says, with all its students as children in order |
| ParentsFromStudents.Database.BulkMigrateParentsFromStudents | migrations/1601022564938-copy-parents-data-into-children-entities-and-delete-parent-users.js:152-195 | it ends with every user that carried parent data linked to the one record of the email, and the others unchanged |
| ParentsOutcome.ChildrenCarryTheContact | migrations/1601022564938-copy-parents-data-into-children-entities-and-delete-parent-users.js:95-117 | a child of a parent user comes out with the contact of the first one processed as its only parent, with the same consents, none of which names a parent, and is otherwise what it was |
| ParentsOutcome.OthersComeOutUnchanged | migrations/1601022564938-copy-parents-data-into-children-entities-and-delete-parent-users.js:119-144 | a user without parent users comes out unchanged |
| ParentsOutcome.StoppedRunLeaves | migrations/1601022564938-copy-parents-data-into-children-entities-and-delete-parent-users.js:119-144 | wherever a run stops: the parents it has deleted are gone, children of those it has processed carry their contact and cleared consents, children of the one it had begun with carry its contact and their old consents, and everybody else is unchanged |
| ParentsOutcome.CarriersPointToTheirRecord | migrations/1601022564938-copy-parents-data-into-children-entities-and-delete-parent-users.js:164-191 | everybody who carried the contact of a parent refers to the record of its email, as do its consents, and is otherwise what it was; the record has the new role alone, is named as the last student with its email says, and lists exactly these students |
| ParentsOutcome.NothingElseComesBack | migrations/1601022564938-copy-parents-data-into-children-entities-and-delete-parent-users.js:152-195 | there is one record for each email behind the old users, and everybody who carried none is unchanged in its place |
| ParentRoundTrip.DownAfterUpRestoresParents | migrations/1601022564938-copy-parents-data-into-children-entities-and-delete-parent-users.js:119-195 | with distinct parent emails, down after up restores a parent exactly when it has a child, once, with the same name and email and exactly its children, each of which refers to it again and is otherwise what it was |
| ParentRoundTrip.OthersComeThrough | migrations/1601022564938-copy-parents-data-into-children-entities-and-delete-parent-users.js:119-195 | a user without parent users comes through both migrations unchanged |
| ParentRoundTrip.EveryRestoredWasAParent | migrations/1601022564938-copy-parents-data-into-children-entities-and-delete-parent-users.js:152-195 | every restored record carries the contact data of an old parent |
| ParentRoundTrip.OnlyParentIsProcessedFirst | migrations/1601022564938-copy-parents-data-into-children-entities-and-delete-parent-users.js:132-137 | for a student with one parent the order of processing does not matter |
| Teams.RemoveDuplicatedTeamUsers | src/services/teams/hooks/helpers.js:455-470 | the loop keeps the first entry of every user |
| Teams.FirstEntries | src/services/teams/hooks/helpers.js:455-470 | no user is left twice, none is lost, and nothing is made up |
| Teams.TeamServices.UserImportById | src/services/teams/index.js:239-253 | adding by id: what is patched, and that it is rejected when a member cannot be populated |
| Teams.TeamServices.ThrowErrorIfUserExistByEmail | src/services/teams/index.js:260-274 | it throws exactly for a member with the email or one that cannot be populated |
| Teams.TeamServices.UserImportByEmail | src/services/teams/index.js:289-339 | inviting by email for every branch, including the expert user that is created before an error and the patch that stands although the link failed |
| Teams.TeamServices.AddPatch | src/services/teams/index.js:346-366 | which import a request leads to, and that early errors are swallowed |
| Teams.TeamServices.AcceptGet | src/services/teams/index.js:390-421 | accepting moves the invitation to the members and covers the school, or is rejected without effect, as it is when a member cannot be populated |
| Teams.TeamServices.RemovePatch | src/services/teams/index.js:443-451 | exactly the invitations of the email as given are withdrawn |
| Teams.SwallowedIff | src/services/teams/index.js:346-366 | an error is answered with success exactly when it is raised before an import starts, and nothing has happened then |
| Teams.DoneIsDone | src/services/teams/index.js:239-451 | after any other success whoever was asked for is invited, a member, or no longer invited |
| Teams.GoneMemberFreezesTheTeam | src/services/teams/index.js:239-421 | once the user of a member is gone, no call but the withdrawal of an invitation changes the team or succeeds |
| Teams.InvitingOpensOne | src/services/teams/index.js:289-339 | an invitation changes the open invitations only, by at most one of the email in the role given; success means that it is open, that a user with the email exists, and that none is a member |
| Teams.AcceptingFulfilsTheInvitation | src/services/teams/index.js:390-421 | who accepts becomes a member in the invited role under its own school, and only its own invitation is gone |
| Teams.StepKeepsWellFormed | src/services/teams/helpers.js:22-37 | every call keeps invited emails distinct, school ids free of duplicates, and every member's school covered |
| Teams.StepKeepsMembers | src/services/teams/index.js:239-253 | every call leaves a member the role and school it came with |
| Teams.RunKeepsTeam | src/services/teams/index.js:239-449 | in every run the team stays well-formed and no member is lost or changed |
| Teams.StepConservesInvitations | src/services/teams/index.js:289-449 | a call makes, accepts or withdraws an invitation exactly when it stops or starts being open |
| Teams.InvitationsAreConserved | src/services/teams/index.js:289-449 | over every run the invitations of an email, open at first or made, equal those accepted, withdrawn and open, so nobody is accepted more often than invited |
| Teams.DoubleEntryIffMemberAccepts | src/services/teams/index.js:303 | nobody is listed twice after a call exactly when it adds somebody by id, or else nobody was before and no member accepts an invitation it can accept |
| Teams.RunIsDistinctIff | src/services/teams/index.js:239-421 | at the end of a run nobody is listed twice exactly when every member who accepts is followed by somebody who is added by id |
| Teams.MembersStayApart | src/services/teams/index.js:239-421 | no run lists a user twice as long as nobody with an open invitation is added by id |
| Teams.AddedAndAcceptedIsListedTwice | src/services/teams/index.js:239-421 | in every team whose members all exist, adding somebody with an open invitation by id and accepting lists them twice |
| TeamsOutcome.AddingById | src/services/teams/index.js:239-253 | adding by id succeeds exactly when the user and the role exist and nobody of the team is gone; the user is entered last, in the role given and with its own school, unless it is a member already, nobody else is entered or lost, invitations stay, and its school is covered |
| TeamsOutcome.MemberEmailIs | src/services/teams/index.js:260-274 | the email a member is compared by is that of its user |
| TeamsOutcome.InvitingByEmail | src/services/teams/index.js:289-339 | for every invitation: whether an expert is made, whether the team gets the invitation in the role given, and what the call ends with |
| TeamsOutcome.AcceptingIff | src/services/teams/index.js:390-421 | accepting succeeds exactly when the role of the first invitation exists and nobody of the team is gone, and then moves it to the members with this role and the school of the user |
| TeamsOutcome.NobodyElseAccepts | src/services/teams/index.js:390-400 | without a user or an invitation accepting changes nothing |
| TeamsOutcome.Withdrawing | src/services/teams/index.js:443-451 | exactly the invitations of the email are taken back; without an email or when the patch fails, none |
| SearchIndex.SplitText | src/utils/search.js:13 | the loop splits a text at its separators, with empty pieces |
| SearchIndex.SplitJoins | src/utils/search.js:13 | the pieces hold no separator, and with the separators between them they are the text |
| SearchIndex.PushGrams | src/utils/search.js:15-19 | the first code unit, the first two and every window of three are the windows that end at each code unit |
| SearchIndex.SplitForSearchIndexes | src/utils/search.js:10-23 | the nested loops compute the index |
| SearchIndex.OneGramPerCodeUnit | src/utils/search.js:10-23 | there is exactly one gram per UTF-16 code unit that is no separator, over all inputs |
| SearchIndex.DecodesToTheWords | src/utils/search.js:10-23 | the words can be read back from the index in their order |
| SearchIndex.IndexIsInjectiveOnWords | src/utils/search.js:10-23 | two inputs are indexed alike exactly when they have the same words in the same order |
| SearchIndex.PrefixIffIndexPrefix | src/utils/search.js:15-19 | for words without separators, q is a prefix of w exactly when the index of q is a prefix of the index of w |
| SearchIndex.PrefixSearchIsExact | src/utils/search.js:10-23 | the grams of a search word stand side by side in the index of any texts exactly when a word has it as a prefix |
| SearchIndex.SeparatorsAreThose | src/utils/search.js:13 | the separators are the hyphen and the 25 code units of white space |
| SearchIndex.GramSpells | src/utils/search.js:15-19 | gram k of a word is spelled by its up to three code units that end at k |
| LessonPositions.CreateDataTree | migrations/1562595327050-AddPositionToLessons.js:10-21 | the loop groups the lessons by a key, each group in the order of the input |
| LessonPositions.CreateDatabaseTask | migrations/1562595327050-AddPositionToLessons.js:23-38 | in whatever order the groups come, one task per lesson of the tree with its place in its group |
| LessonPositions.TasksForLessons | migrations/1562595327050-AddPositionToLessons.js:46-59 | the tasks are those of the lessons that are not replaced, each once, with the rank among their peers |
| LessonPositions.TaskIffNotReplaced | migrations/1562595327050-AddPositionToLessons.js:50-59 | a lesson gets a task exactly when no course group has the key of its course |
| LessonPositions.LessonStore.Exec | migrations/helpers/DatabaseTaskTemplate.js:47-67 | a task that changes nothing is skipped, any other writes one position and is logged, as failed when its update fails |
| LessonPositions.LessonStore.ExecAll | migrations/helpers/DatabaseTaskTemplate.js:47-67 | each lesson is written by its own task at most, and the logs tell which |
| LessonPositions.LessonStore.Up | migrations/1562595327050-AddPositionToLessons.js:41-64 | every lesson gets its rank unless its update fails, as if all tasks had been written, and exactly the lessons that change are logged |
| LessonPositions.GroupsAreNumbered | migrations/1562595327050-AddPositionToLessons.js:23-38 | the lessons of a course or course group get the positions 0 to n-1 in the order of position and creation |
| LessonPositions.SecondRunWritesNothing | migrations/1562595327050-AddPositionToLessons.js:41-64 | whatever order a second query returns equal lessons in, every lesson already has its position |
| LessonPositions.SecondRunIsIdle | migrations/1562595327050-AddPositionToLessons.js:41-64 | a run in which no update fails, followed by another one, moves no lesson the second time |
| LessonPositions.NullCourseGetsNoTask | migrations/1562595327050-AddPositionToLessons.js:50-59 | a lesson whose course is null, beside one of a course group that is null |
| LessonPositions.PositionCountsTheEarlier | migrations/1562595327050-AddPositionToLessons.js:10-59 | a lesson gets as position the number of lessons of its course, or without one of its course group, that the query lists before it, and nothing else about it changes; it gets none exactly when a lesson without course has a course group with the key of its course |
| LessonPositions.QueryOrder | migrations/1562595327050-AddPositionToLessons.js:8 | the query lists lessons without position first, then by position, and equal ones by age |
| TransferObject.DeepTransform | src/hooks/transformToDataTransferObject.js:5-43 | it succeeds exactly when containers nest at most 12 levels and hold no invalid date; it returns the converted value and leaves objects overwritten, arrays copied, and objects without a prototype inside alone |
| TransferObject.TransformField | src/hooks/transformToDataTransferObject.js:26-41 | visiting an array twice assigns what one visit would |
| TransferObject.TransformElement | src/hooks/transformToDataTransferObject.js:10-24 | what the mapping returns for an element, and what becomes of the element |
| TransferObject.Context.TransformToDataTransferObject | src/hooks/transformToDataTransferObject.js:45-48 | the hook succeeds exactly when the transform does, and keeps what its own reference sees |
| TransferObject.TransformIsCleanAndIdempotent | src/hooks/transformToDataTransferObject.js:5-43 | a transformed container has the same shape and otherwise the same leaves, and is not changed by another transform; it has no date or object id left exactly when no object without a prototype inside holds one |
| TransferObject.DeepTwice | src/hooks/transformToDataTransferObject.js:34-39 | transforming a value twice is transforming it once, at any depth |
| TransferObject.DeepFits | src/hooks/transformToDataTransferObject.js:6-8 | the transform changes neither the nesting nor whether it succeeds |
| TransferObject.HookIsCleanIff | src/hooks/transformToDataTransferObject.js:45-48 | what the hook hands on is free of dates and object ids exactly when none is reached through arrays alone and none is in an object without a prototype inside |
| TransferObject.DateInAListStays | src/hooks/transformToDataTransferObject.js:45-48 | a list with a date is handed on with the date, although the transform has converted it |
| TransferObject.SucceedsIff | src/hooks/transformToDataTransferObject.js:3-8 | the transform succeeds exactly when no container is reached in 12 steps or more and no invalid date at all, going from part to part up to objects without a prototype |
| TransferObject.ListsAreHandedOn | src/hooks/transformToDataTransferObject.js:45-48 | what is reached through arrays alone is handed on as it was, objects converted |
| TransferObject.ListsKeepTheirLength | src/hooks/transformToDataTransferObject.js:45-48 | every array that is reached through arrays alone keeps its length |

## Left out

- MessengerProducer.Producer.RequestSyncForEachTeamUser: messages are values; serialisation to JSON and back is not modelled.
- MessengerDelivery.DrainingConserves: stated for a database that does not change while the queue is drained; the safety and termination theorems hold while it changes.
- MessengerSchoolSync.SchoolSyncReachesEveryone: speaks of the first page of users and courses, which is what the services return.
- LdapSearch.LdapService.SearchCollection: the locks are values of `Locking.Lock` here, not objects of the class `Locking.LockingQueue`, which is proved against the same functions; a granted promise installs its listeners at once.
- RoleCache.RoleModel.ResolvePermissions: a call is atomic here and the two reads of the cache are one; what writes between its look-ups and its update do is said by the lemmas of `RoleWrites`.
- RoleWrites.WriteAmongLookupsKeepsAgreementIff: for a role that keeps its sub-roles; one whose sub-roles change while look-ups are under way is covered by `OneRoleIsSeenWhole`, as long as all look-ups of it find the same.
- Jwt.TokenHasItsThreeParts: JSON, UTF-8 and the keyed hash are arguments; expiry, audience and the look-up of the account are not part of the model.
- StorageTrash.Bucket.MoveFilesToTrashBatch: a limit below 1, with which the loop would not end, is excluded; a delete request removes all of its files or none.
- StorageTrash.BatchConservesIff: two files that hold the same can stand for one another, so that losing one may go unnoticed; `BatchTrashesAllIff` needs no such condition.
- UserDeletion.Deletion.DeleteUserRelatedData: writes to the trashbin succeed; the asynchronous start from the deletion itself is a separate call.
- ConcurrentDeletions.TrashbinsAreTheEarlyReads: the deletion of the pins counts as one call, and so do the look-up of the school of tombstone users and the making of one.
- Registration.RegistrationService.RegisterUser: `toLowerCase` is modelled on the letters of ASCII; creating a consent either succeeds or leaves nothing; the branch that creates a user without id is never reached and left out.
- RssNews.Job.ProcessSchool: the status written back to the school's feeds is reduced to the number of failures.
- ProviderRepair.Migration.Up: the buckets of every provider are arguments; a provider is listed with what it returns.
- ParentsToStudents.Database.BulkMigrateParentsToStudents: an update of several users is made for all of them or for none; the lower-casing of emails by the schema is not modelled.
- ParentsFromStudents.Database.BulkMigrateParentsFromStudents: database calls succeed; the id of the new role is an argument, new users are numbered by a counter; lists that mix ids and contact data are not modelled.
- Teams.TeamServices.UserImportByEmail: `toLowerCase` is modelled on the letters of ASCII; the hooks of the team service, which internal calls skip, and the contents of the link are left out.
- Teams.TeamServices.AcceptGet: that a null user is refused when the members are patched is the validation of the database library for a required field (`src/services/teams/model.js:36`), which is not part of this model.
- LessonPositions.LessonStore.Up: the sorting is the database's and its answer an argument; `unset` and the setters of the database-task template are not used by this migration and left out.
- TransferObject.DeepTransform: works on trees of values, so an object that is reached twice or a cycle is not modelled.
- TransferObject.Context.TransformToDataTransferObject: when it throws, what has been overwritten before is not stated.
- `releaseLock` of the locking queue itself, which bypasses the handles, is not part of the step relation.
- The reconnecting channel to the message broker and lost sends: enqueuing succeeds, and a requeued message keeps its place and comes back marked as redelivered.
- Connecting and binding to the directory server, and the searches built on `searchCollection`.
- Permission checks but the one before setting a tombstone user, authentication and the other hooks around the services: access decisions, not state.
- Service registration, sockets, logging, mail, S3, calendar and other network clients: only their effect on the collections is modelled.
- Schema declarations, index migrations and migrations of permission strings: single updates without interplay.
