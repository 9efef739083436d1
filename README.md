# meowhasiswa-be core, modelled in Dafny

meowhasiswa-be is the back end of a student forum. Users:

- register with an email address and verify it with a mailed code;
- log in;
- post threads inside sub-threads (topic boards, some tied to a university);
- comment on threads and reply to comments;
- like and dislike threads, comments and replies;
- subscribe to threads and follow sub-threads;
- rate their own university, with lists of pros and cons.

Every list endpoint pages with a cursor of the form `<key>_<id>`.

This project models, in Dafny, the parts of the service and repository layers that decide what is stored and returned:

- the response codes;
- the query-parameter, cursor and email helpers;
- the bearer-token extraction of the JWT middleware;
- the like/dislike toggles and the counters they keep;
- comments, replies and thread subscriptions;
- sub-thread creation, editing, deletion and following;
- university ratings with their pros and cons;
- registration, login and email verification;
- cursor pagination for threads, sub-threads and university ratings.

## Tables and services

- Each repository is a class. Its tables are `map` or `seq` fields, and its statements are methods that state the whole new state.
- Each service is a class holding its repository. Its methods return an `Outcome`: either `Done`, or `Fail` with a `Failure(code, message)` carrying the code and message the Go service returns.
- The like/dislike decision is a pure transition table, `Reactions.Transition`.
- Its invariant, `Reactions.Counted`, says each target's counters equal the number of actors whose newest row holds that action.
- Every toggle preserves that invariant. The class invariants (`Valid`) carry it through every service method.

## Go string functions and pagination

- `GoStrings` models `strings.Index`, `strings.Split` and `strings.Join` for a non-empty separator, and `len` in UTF-8 bytes. A Go string is modelled as its sequence of runes.
- `Decimal` models `strconv.Atoi` (with the int64 range), `strconv.ParseBool`, `strconv.Itoa` and `%.2f` on a value held in hundredths. It also models the error text `strconv` returns: `strconv.<func>: parsing <quoted text>: invalid syntax` or `value out of range`.
- `Pagination` models a list query generically:
  1. the rows in `ORDER BY key DESC, id DESC` order;
  2. the seek on the cursor's position;
  3. `LIMIT limit+1`;
  4. the trim, whose dropped row becomes the next cursor.
- `Pagination.WalkVisitsEachRowOnce` proves that following next-cursors from the first page returns every row exactly once, in order, when the seek compares (key, id) pairs.

## Model

| member | source | states |
|---|---|---|
| ResponseCode.AsString | internal/response/code.go:34-36 | every code prints as six characters starting with "CS", and `FromString` reads the code back |
| ResponseCode.AsStringInjective | internal/response/code.go:3-17 | two codes with the same text are the same code |
| ResponseCode.GetStatus | internal/response/code.go:38-46 | the status is "SUCCESS" exactly for the success code, and "FAILED" for every other code |
| ResponseCode.GetMessage | internal/response/code.go:48-50 | the message is the code's entry in the message table; it is empty exactly for InvalidRequest and Forbidden, which have no entry |
| ResponseCode.GetVersion | internal/response/code.go:52-54 | the version is "1" for every code |
| Common.GetIntQueryParams | pkg/common.go:17-32 | an absent parameter gives the default and a non-integer gives BadRequest "<key> should be integer, got error: " followed by the `strconv.Atoi` error text; a positive integer becomes the value, and zero or a negative value falls back to the default |
| Common.IntQueryOfItoa | pkg/common.go:22-29 | the decimal text of any positive int64 is read back as itself |
| Common.GetBoolQueryParams | pkg/common.go:34-46 | an absent parameter gives false, and text ParseBool rejects gives BadRequest "<key> should be boolean, got error: " followed by the `strconv.ParseBool` error text; otherwise the value is what ParseBool reads |
| Decimal.Atoi | pkg/common.go:22 | a successful parse lies in the int64 range and agrees with the decimal reading |
| Decimal.AtoiItoa | pkg/common.go:22 | Atoi inverts Itoa on the int64 range |
| Decimal.AtoiRange | pkg/common.go:22 | well-formed decimal text fails Atoi exactly when it is outside the int64 range |
| Decimal.ParseBool | pkg/common.go:39 | true exactly for 1, t, T, TRUE, true and True; false exactly for 0, f, F, FALSE, false and False; everything else is rejected |
| Decimal.FormatBool | pkg/common.go:39 | ParseBool reads back every formatted boolean |
| Decimal.ShortTextInRange | pkg/common.go:22 | well-formed text shorter than 19 characters always fits in an int64 |
| Decimal.ShortTextSyntaxError | pkg/common.go:22-25 | text shorter than 19 characters that Atoi refuses is reported as "invalid syntax", never "value out of range" |
| Decimal.EscapeChar | pkg/common.go:24 | `strconv.Quote` puts a backslash before exactly `"` and `\` among the characters it writes as two |
| Decimal.Quote | pkg/common.go:24 | the quoted text is wrapped in `"` and is at least as long as the text plus the two quotes |
| Decimal.QuotePlain | pkg/common.go:24 | text without `"`, `\` or ASCII control characters is quoted by wrapping it in `"` |
| Decimal.ParseItoa | internal/repository/thread.go:345 | the decimal text of any integer parses back to it |
| Decimal.ParseFormatHundredths | internal/repository/thread.go:342 | the `%.2f` text of a value held in hundredths, negative ones included, parses back to the same value |
| GoStrings.Split | pkg/util.go:39 | a split always has at least one piece |
| GoStrings.JoinSplit | pkg/util.go:87-89 | joining the pieces of a split with the same separator gives the original string |
| GoStrings.SplitMany | internal/middleware/jwt.go:87-90 | a split has more than one piece exactly when the separator occurs |
| GoStrings.SplitPiecesFree | pkg/util.go:39 | no piece of a split contains the separator |
| GoStrings.FirstPiece | pkg/util.go:41 | the first piece is the prefix up to the first separator, or the whole string |
| GoStrings.SecondPiece | internal/middleware/jwt.go:94 | the second piece starts right after the first separator and ends at the next separator or at the end |
| GoStrings.SplitCount | pkg/util.go:73-74 | splitting on one character gives one more piece than that character has occurrences |
| GoStrings.JoinTail | pkg/util.go:87-89 | joining a tail of the pieces gives a suffix of the whole join |
| GoStrings.JoinTailSep | pkg/util.go:87-89 | a tail that leaves out the first piece is preceded by a separator in the whole join |
| GoStrings.CountJoin | pkg/util.go:87-89 | joining separator-free pieces with a one-character separator adds exactly one separator per gap |
| GoStrings.ByteLen | pkg/util.go:86 | the UTF-8 byte length lies between the rune count and four times the rune count |
| Util.GetCursorData | pkg/util.go:37-42 | a cursor containing "_" yields two "_"-free pieces that fit in the cursor |
| Util.GetCursorDataPositions | pkg/util.go:39-41 | the key is the text before the first "_", and the id runs from there to the next "_" or the end |
| Util.CursorRoundTrip | pkg/util.go:37-42 | a cursor built from a "_"-free key and id splits back into that key and id |
| Util.NullStrToStr | pkg/util.go:44-50 | a nil string becomes "", and any other value is returned unchanged |
| Util.TruncateWithEllipsis | pkg/util.go:64-70 | strings of at most maxLength runes are unchanged; longer ones keep their first maxLength runes and gain "..." |
| Util.EmailParts | pkg/util.go:73-74 | an address splits on "@" into one more piece than it has "@" |
| Util.ExtractDomainFromEmail | pkg/util.go:72-93 | an error, with the source's message, exactly when the address lacks exactly one "@" or its domain has no "."; otherwise a suffix of the address holding two dots when there are more than two labels and the second-to-last is at most three bytes, and one dot otherwise |
| Util.ExtractedDomainStart | pkg/util.go:85-90 | the extracted domain has no "@" and starts right after the "@" or right after a ".", so it is made of whole labels |
| Util.EmailPartsOf | pkg/util.go:73-78 | `local@domain` with neither part containing "@" splits into exactly those two parts |
| Util.DomainFacts | pkg/util.go:85-90 | joining the last labels gives a suffix of the address with one "." fewer than the number of labels kept |
| Util.DomainStartOf | pkg/util.go:85-90 | that suffix follows the "@" when it is the whole domain, and a "." otherwise |
| JwtMiddleware.ParseTokenFromHeader | internal/middleware/jwt.go:81-95 | Unauthorized "Invalid Token" exactly when "Bearer " does not occur; otherwise the token is the text between the first "Bearer " and the next one or the end |
| JwtMiddleware.BearerToken | internal/middleware/jwt.go:87-94 | "Bearer " followed by a token without "Bearer " gives that token back |
| JwtMiddleware.PrefixIgnored | internal/middleware/jwt.go:87-94 | whatever precedes the first "Bearer " does not change the result |
| JwtMiddleware.GetToken | internal/middleware/jwt.go:112-117 | on a header containing "Bearer ", GetToken returns the token that ParseTokenFromHeader returns |
| JwtMiddleware.Authenticate | internal/middleware/jwt.go:39-57 | a header without "Bearer " is rejected; a token equal to the static token authenticates as the superadmin; any other token goes on to signature checking |
| JwtMiddleware.EmptyStaticToken | internal/middleware/jwt.go:45-55 | with an empty static token configured, the header "Bearer " alone authenticates as the superadmin |
| Reactions.ActionName | internal/constants/constants.go:11-14 | each action is stored as its own constant, and the stored text reads back as that action |
| Reactions.Transition | internal/service/thread.go:280-380 | a like request likes unless the newest action was a like, in which case it unlikes (dislikes symmetric); the counters move by exactly the change in the actor's held like or dislike |
| Reactions.TransitionTwice | internal/service/thread.go:280-428 | the same request twice from a neutral state cancels both counter moves and leaves the actor neutral |
| Reactions.Flags | internal/service/thread.go:193-201 | isLiked exactly when the stored action is a like, isDisliked exactly when it is a dislike, and never both |
| Reactions.FlagsNeutral | internal/service/thread.go:193-201 | no action, an unlike or an undislike shows neither flag |
| Reactions.LastAction | internal/repository/thread.go:374-389 | a last action exists only when the actor has a row for the target |
| Reactions.HoldersMember | internal/repository/thread.go:374-389 | an actor holds an action on a target exactly when the newest row of theirs says so |
| Reactions.HoldersAfterWrite | internal/repository/thread.go:134-167 | rewriting one actor's rows changes the number of holders by exactly what that actor gave up and took |
| Reactions.CountedNonNegative | internal/repository/thread.go:86-132 | where the counters match the rows, like and dislike counts are never negative |
| Reactions.ToggleKeepsCounted | internal/service/thread.go:323-371 | applying the transition's counter moves and recording its action keeps the counters equal to the rows |
| Reactions.FreshTargetCounted | internal/service/thread.go:606-614 | a new target with zero counters and no rows keeps the counters equal to the rows |
| Reactions.ApplyDeltas | internal/repository/thread.go:86-132 | two counter moves in a row are one move by their sum |
| ThreadRepo.Rewrite | internal/repository/thread.go:154-167 | the update rewrites the action of every row of that actor and target, and keeps everything else in each row |
| ThreadRepo.RecordOneRow | internal/service/thread.go:323-371 | keeping one row per actor and target, the newest action afterwards is the one written; an existing row keeps its thread and comment ids |
| ThreadRepo.AddCommentConsistent | internal/service/thread.go:599-614 | adding a comment with zero counters, and no other key change, keeps the tables consistent |
| ThreadRepo.AddReplyConsistent | internal/service/thread.go:669-685 | adding a reply with zero counters, and no other key change, keeps the tables consistent |
| ThreadRepo.ThreadRepository.AddToCounter | internal/repository/thread.go:86-132 | one counter of one target moves by exactly ±1; a missing target is left missing; nothing else changes |
| ThreadRepo.ThreadRepository.AddToCommentCount | internal/repository/thread.go:62-84 | the thread's comment count moves by ±1; a missing thread is a no-op |
| ThreadRepo.ThreadRepository.IncrementCommentReplyCount | internal/repository/thread.go:391-401 | the comment's reply count grows by one; a missing comment is a no-op |
| ThreadRepo.ThreadRepository.UpdateActivity | internal/repository/thread.go:154-198 | the actor's rows for the target are rewritten to the new action; without rows nothing changes |
| ThreadRepo.ThreadRepository.SaveActivity | internal/repository/thread.go:134-152 | the row is appended to the actor's rows for that target |
| ThreadRepo.ThreadRepository.SaveThreadComment | internal/repository/thread.go:200-208 | the comment is stored with zero likes and dislikes |
| ThreadRepo.ThreadRepository.SaveCommentReply | internal/repository/thread.go:403-411 | the reply is stored with zero likes and dislikes |
| ThreadRepo.ThreadRepository.PutSubscription | internal/repository/thread.go:693-718 | the subscription row of that user and thread is set; nothing else changes |
| ThreadSvc.ToggleKeepsCounts | internal/service/thread.go:280-530 | a toggle keeps the tables consistent, and afterwards the actor holds the requested reaction exactly when they did not before |
| ThreadSvc.ActiveTokensSpec | internal/service/thread.go:628-634 | the tokens are exactly those of the devices with notifications on, never more than the devices |
| ThreadSvc.ActiveTokensAppend | internal/service/thread.go:628-634 | a further device adds its token exactly when its notifications are on |
| ThreadSvc.CollectActiveTokens | internal/service/thread.go:628-634 | the loop collects the active tokens in device order |
| ThreadSvc.CommentPushContent | internal/service/thread.go:646 | the push body is "<username>: " followed by the comment, cut to 50 runes with "..." when longer |
| ThreadSvc.ThreadService.Toggle | internal/service/thread.go:280-428 | the counters and rows become the toggle's new state, and the other tables are untouched |
| ThreadSvc.ThreadService.LikeThread | internal/service/thread.go:280-380 | liking a thread performs the like toggle on that thread |
| ThreadSvc.ThreadService.DislikeThread | internal/service/thread.go:430-530 | disliking a thread performs the dislike toggle on that thread |
| ThreadSvc.ThreadService.ReactToComment | internal/service/thread.go:701-813 | a missing reply gives NotFound with nothing written; otherwise the comment or reply is toggled, keyed by its own id |
| ThreadSvc.ThreadService.CommentThread | internal/service/thread.go:561-657 | a missing thread gives BadRequest and an owner without devices NotFound, writing nothing; the call succeeds exactly when the thread exists and its owner has a device, and then the comment count grows by one, the comment is stored with zero counters, and a push with the active tokens, the truncated body and "/thread/<id>" goes out exactly when the owner is not the commenter and has an active device |
| ThreadSvc.ThreadService.ReplyComment | internal/service/thread.go:659-699 | the parent's reply count grows by one, or is left alone when the parent is missing; the reply is stored with zero counters |
| ThreadSvc.ThreadService.SubscribeThread | internal/service/thread.go:1539-1598 | a missing thread gives NotFound and the caller's own thread gives BadRequest; otherwise the caller's row is subscribed, reusing an existing row's id |
| ThreadSvc.ThreadService.UnSubscribeThread | internal/service/thread.go:1600-1628 | a missing row gives NotFound with nothing written; otherwise the row becomes unsubscribed |
| ThreadSvc.ThreadEntry | internal/service/thread.go:193-201 | a list entry keeps the thread and flags a stored like or dislike, never both |
| ThreadSvc.MapThreadListData | internal/service/thread.go:162-207 | each thread maps to its entry, in order |
| ThreadSvc.MapThreadDetailData | internal/service/thread.go:240-278 | the detail view flags the caller's last like or dislike |
| ThreadSvc.CommentEntry | internal/service/thread.go:1361-1369 | a comment entry keeps the id and counts, and flags a stored like or dislike |
| ThreadSvc.MapReplies | internal/service/thread.go:1371-1403 | each reply maps to its entry, in order |
| ThreadSvc.MapThreadCommentsData | internal/service/thread.go:1334-1411 | each comment maps to its entry with each of its replies mapped to theirs, in order |
| CommentActivity.KindsDisjoint | internal/repository/thread.go:169-198 | a comment-level filter and a reply-level filter never select the same row |
| CommentActivity.NewestIsLatest | internal/repository/thread.go:519-534 | the lookup finds a row exactly when one matches, and then returns the action of the newest matching row |
| CommentActivity.UpdateWhere | internal/repository/thread.go:169-183 | exactly the matching rows get the new action, and every other row is untouched |
| CommentActivity.UpdateLeavesOtherKind | internal/repository/thread.go:169-198 | a comment update never changes what a reply lookup finds, and the other way round |
| CommentActivity.ReactToCommentAsWritten | internal/service/thread.go:716-813 | the table grows by one row exactly when the thread-filtered lookup finds nothing |
| CommentActivity.ReactToReplyAsWritten | internal/service/thread.go:815-931 | the table grows by one reply row exactly when the thread-filtered reply lookup finds nothing |
| CommentActivity.ReactionsStayApart | internal/repository/thread.go:519-551 | a comment reaction leaves every reply lookup unchanged, and the other way round |
| CommentActivity.CommentLikeThroughTwoThreads | internal/service/thread.go:716-770 | see the finding on comment-activity filters below |
| Pagination.IdLtTotal | internal/repository/thread.go:321-323 | the id order is total on distinct ids |
| Pagination.KeyTextFree | internal/repository/thread.go:342-344 | a cursor key's text has no "_" and reads back as its key |
| Pagination.EncodeCursor | internal/repository/thread.go:341-345 | every built cursor contains "_" |
| Pagination.DecodeEncode | internal/repository/thread.go:341-345 | decoding a row's cursor gives back that row's position |
| Pagination.SeekSound | internal/repository/thread.go:321 | the seek keeps only rows of the table that the rule admits |
| Pagination.Fetch | internal/repository/thread.go:279 | at most limit+1 rows are fetched |
| Pagination.Trim | internal/repository/thread.go:338-348 | a non-empty next cursor always contains "_" |
| Pagination.PageContract | internal/repository/thread.go:338-351 | an unreadable cursor gives no page; otherwise the page echoes the cursor and is a prefix of the fetch, at most limit rows |
| Pagination.PageNextCursor | internal/repository/thread.go:338-347 | there is a next cursor exactly when limit+1 rows were fetched; it is then the cursor of the dropped row, and the page has exactly limit rows |
| Pagination.PageBelowCursor | internal/repository/thread.go:319-323 | with the pair seek, every row of a page lies at or below the cursor's position |
| Pagination.SeekFromRow | internal/repository/thread.go:321 | on a sorted table, seeking from a row's position gives exactly the rows from it on |
| Pagination.PageFromRow | internal/repository/thread.go:319-347 | the page at a row's cursor is the next limit rows, with the following row's cursor, or the rest of the table with none |
| Pagination.FirstPage | internal/repository/thread.go:325-347 | without a cursor the page is the first limit rows, with the next row's cursor, or all rows with none |
| Pagination.PageUnreadable | internal/repository/thread.go:319-321 | a cursor whose key does not parse gives no page |
| Pagination.WalkVisitsEachRowOnce | internal/repository/thread.go:319-347 | on a table sorted by (key, id) with distinct ids, following next cursors from the first page returns every row once, in order |
| Pagination.TrimPage | internal/repository/thread.go:338-348 | the trim loop computes the trimmed page: at most limit rows, echoing the cursor |
| Pagination.GetPage | internal/repository/thread.go:310-351 | the query computes the page |
| ThreadList.ModeOf | internal/repository/thread.go:341-345 | trending cursors exactly when the trending flag is set |
| ThreadList.SeekRuleAsWritten | internal/repository/thread.go:310-324 | the trending list seeks on the key alone, and the recency list on the (key, id) pair |
| ThreadList.GetListAsWritten | internal/repository/thread.go:252-354 | the thread list page with the seek as written |
| ThreadList.GetList | internal/repository/thread.go:252-354 | the thread list page with the pair seek in both modes |
| ThreadList.GetListWalk | internal/repository/thread.go:319-347 | following the corrected list's cursors returns every thread once, in either mode |
| ThreadList.TrendingWalkStalls | internal/repository/thread.go:311-315 | two threads with the same trending score and limit 1: the second page serves the first thread again with the same cursor, and following the cursors never ends, in either order of the tied threads |
| SubThreads.FollowingMember | internal/repository/subthread.go:89-111 | a user is among a sub-thread's followers exactly when their row says following |
| SubThreads.FollowCountNonNegative | internal/service/subthread.go:193-304 | where follower counts match the rows, they are never negative |
| SubThreads.FollowKeepsCounted | internal/service/subthread.go:222-246 | writing one follower row, and moving the count by the change in its flag, keeps counts equal to rows |
| SubThreads.FreshSubThreadCounted | internal/service/subthread.go:98-109 | a new sub-thread with zero followers and no rows keeps counts equal to rows |
| SubThreads.Edited | internal/service/subthread.go:134-149 | name, description, image and colour are replaced; the university changes only when a non-empty one is given, and the university flag only when one is given |
| SubThreads.EditKeepsUniversity | internal/service/subthread.go:143-149 | an edit without a university id changes only the four text fields |
| SubThreads.SubThreadRepository.AddToFollowersCount | internal/repository/subthread.go:89-111 | the follower count moves by ±1; nothing else changes |
| SubThreads.SubThreadRepository.Save | internal/repository/subthread.go:113-121 | the sub-thread is stored under its new id |
| SubThreads.SubThreadRepository.Put | internal/repository/subthread.go:211-237 | the stored sub-thread is replaced |
| SubThreads.SubThreadRepository.PutFollower | internal/repository/subthread.go:194-209 | the follower row of that user and sub-thread is set |
| SubThreads.SubThreadService.CreateSubThread | internal/service/subthread.go:83-117 | a taken name gives BadRequest with nothing written; otherwise the sub-thread is stored with zero followers |
| SubThreads.SubThreadService.UpdateSubThread | internal/service/subthread.go:119-160 | a missing or deleted sub-thread gives NotFound; otherwise it becomes its edited form |
| SubThreads.SubThreadService.DeleteSubThread | internal/service/subthread.go:162-191 | a missing or deleted sub-thread gives NotFound; otherwise it is marked deleted and no longer found |
| SubThreads.SubThreadService.FollowSubThread | internal/service/subthread.go:193-255 | following twice is a no-op; otherwise the caller's row says following and the count grows by one |
| SubThreads.SubThreadService.UnFollowSubThread | internal/service/subthread.go:257-304 | without a row, NotFound; a row not following changes nothing; otherwise it stops following and the count drops by one |
| SubThreads.VisibleRows | internal/repository/subthread.go:38-51 | the listed rows are exactly the table rows passing the filters, still sorted and with distinct ids |
| SubThreads.GetList | internal/repository/subthread.go:24-87 | the page of the filtered table; both following filters together give no page |
| SubThreads.GetListWalk | internal/repository/subthread.go:62-81 | following cursors returns every listed sub-thread once |
| Universities.ProIsNotCon | internal/constants/constants.go:16-17 | the pro and con tags differ |
| Universities.CheckRater | internal/service/university.go:49-68 | the user exists and belongs to that university; otherwise NotFound or the BadRequest for no or another university |
| Universities.FindRating | internal/repository/university.go:140-158 | the index of a rating by that user for that university, or a proof that none exists |
| Universities.CreateCheck | internal/service/university.go:49-79 | creating passes exactly when the rater checks pass and there is no earlier rating, which otherwise gives BadRequest |
| Universities.UpdateTarget | internal/service/university.go:176-206 | updating targets the caller's own rating for that university, or fails as the source does |
| Universities.UpdateTargetAsWritten | internal/service/university.go:176-236 | the as-written update fails exactly when the corrected one does, with the same error |
| Universities.Tagged | internal/service/university.go:120-140 | each text becomes a point of that rating and kind, in order |
| Universities.BuildPoints | internal/service/university.go:120-140 | the loops build the pros then the cons, one point each |
| Universities.ContentsMembers | internal/service/university.go:347-357 | a text is among a kind's contents exactly when some point of that kind carries it |
| Universities.ContentsPointsOf | internal/service/university.go:120-140 | the points built from pros and cons give back the pros under "PRO" and the cons under "CON" |
| Universities.PartitionRoundTrip | internal/service/university.go:120-140 | reading back the "PRO" points gives the pros, and reading back the "CON" points gives the cons |
| Universities.MapRatingPoints | internal/service/university.go:347-357 | splitting points by kind gives the pro and con contents in order |
| Universities.WithoutPointsFor | internal/repository/university.go:208-219 | deleting a rating's points leaves it none and leaves every other rating's points as they were |
| Universities.WithoutMembers | internal/repository/university.go:208-219 | the deletion removes exactly the points of that rating |
| Universities.EditById | internal/repository/university.go:170-182 | exactly the ratings with that id take the new values, and their total is the sum of the scores |
| Universities.EditByIdOnlyOne | internal/repository/university.go:170-182 | with distinct ids, the update changes exactly that one rating and keeps the ids |
| Universities.UniversityRepository.Save | internal/repository/university.go:160-168 | the rating is appended |
| Universities.UniversityRepository.UpdateByID | internal/repository/university.go:170-182 | the ratings are edited by id |
| Universities.UniversityRepository.BulkSave | internal/repository/university.go:184-192 | the points are appended |
| Universities.UniversityRepository.DeletePoints | internal/repository/university.go:208-219 | exactly that rating's points are removed |
| Universities.CreateKeepsTables | internal/service/university.go:95-142 | adding a new rating and its points keeps the ids distinct, one rating per user and university, and every point owned |
| Universities.AddPoints | internal/service/university.go:120-142 | afterwards the new rating owns exactly its built points, and the other ratings keep theirs |
| Universities.UpdateKeepsTables | internal/service/university.go:236-274 | editing a rating and replacing its points keeps the tables well formed |
| Universities.ReplacePoints | internal/service/university.go:244-274 | after the replacement the rating owns exactly the new points, and the others keep theirs |
| Universities.UpdateAsWritten | internal/service/university.go:167-289 | the update as written fails exactly when the checks fail |
| Universities.UpdateOverwritesOthersRating | internal/service/university.go:197-236 | see the finding on rating updates below |
| Universities.MapRatingDetail | internal/service/university.go:393-437 | the detail carries the rating with its own pros and cons in order |
| Universities.MapRatingList | internal/service/university.go:315-366 | each rating maps to its detail, in order |
| Universities.GetList | internal/repository/university.go:68-128 | the rating list page with the pair seek |
| Universities.GetListWalk | internal/repository/university.go:103-122 | following cursors returns every rating once |
| Universities.UniversityService.CreateUniversityRating | internal/service/university.go:40-165 | each failed check is reported with nothing written; otherwise the rating is stored with its total, its pros and cons are appended while every other rating keeps its points, and the user is marked as having rated |
| Universities.UniversityService.UpdateUniversityRating | internal/service/university.go:167-289 | each failed check is reported with nothing written; otherwise the caller's own rating takes the new values and exactly the new points |
| Auth.Login | internal/service/auth.go:144-172 | success exactly when the email is known and the password matches, returning that user; every failure is the same BadRequest |
| Auth.VerifyCheck | internal/service/auth.go:178-213 | success exactly when the user exists, is not yet verified, and the newest code for the email is unexpired and equal to the one given; every failure is a BadRequest |
| Auth.RegisterThenVerify | internal/service/auth.go:77-213 | after registering, the code verifies until it expires; afterwards the expiry is reported, and any other code is a mismatch |
| Auth.VerifyOnlyOnce | internal/service/auth.go:189-192 | a successful verification cannot succeed again: the user is then already verified |
| Auth.AuthService.Register | internal/service/auth.go:42-142 | a taken email gives BadRequest with nothing written; otherwise an unbanned, unverified user with 50 points and an unused code are stored |
| Auth.AuthService.VerifyEmail | internal/service/auth.go:174-258 | the first failed check is reported with nothing written; otherwise the record is used, the user verified, and a repeat fails |
| Users.FindByEmail | internal/repository/user.go:126-138 | the first user with that email, or none at all |
| Users.FindById | internal/repository/user.go:140-152 | the first user with that id, or none at all |
| Users.LatestRecord | internal/repository/user.go:92-108 | the newest verification record for the email, or none at all |
| Users.AppendDistinct | internal/service/auth.go:46-55 | adding a user with a new email and id keeps emails and ids distinct |
| Users.SetVerified | internal/repository/user.go:212-227 | exactly the user with that id becomes verified |
| Users.SetHasRate | internal/repository/user.go:246-261 | exactly the user with that id gets the new flag |
| Users.FlagsKeepKeys | internal/repository/user.go:212-261 | changing flags keeps ids and emails distinct and every lookup result |
| Users.FindByEmailAppend | internal/repository/user.go:20-28 | after an insert, a lookup finds the old match, or else the new row |
| Users.UserRepository.Save | internal/repository/user.go:20-28 | the user is appended |
| Users.UserRepository.SaveVerify | internal/service/auth.go:77-87 | the verification record is appended |
| Users.UserRepository.SetEmailVerified | internal/repository/user.go:212-227 | the user with that id becomes verified |
| Users.UserRepository.SetHasRateUniversity | internal/repository/user.go:246-261 | the user with that id gets the new flag |
| Users.UserRepository.MarkVerifyUsed | internal/repository/user.go:229-244 | exactly the records with that id become used |

## Left out

- Go strings: strings are sequences of runes. `len` is the UTF-8 byte count (`GoStrings.ByteLen`), and there is no invalid UTF-8.
- Decimal.Quote: characters outside ASCII are kept as they are. `strconv.Quote` writes non-printable ones as `\u` or `\U` escapes, and the model has no table of printable Unicode characters. ASCII is quoted as Go quotes it.
- Integers: int64 values are unbounded integers. Only `strconv.Atoi` enforces the int64 range.
- Floating point:
  - The trending score (internal/repository/thread.go:261-267) is a whole number of hundredths. Its computation from likes and age is not modelled.
  - The overall rating, the total divided by five as a float64, is not stored in the model. The integer total is.
- Database failures: every database call succeeds. The ServerError paths after a failed query, and the rollbacks, are not modelled.
- Transactions and concurrency:
  - Tables change one statement at a time.
  - Concurrent requests, such as two toggles racing between the ledger read and the transaction, are not modelled.
- Parameters instead of the source's own calls:
  - the clock (`time.Now`), UUIDs, the verification code (`GenRandNumber`) and random strings;
  - bcrypt, which becomes the `matches` parameter of `Auth.Login`;
  - the configured expiry.
- JWT:
  - Signing and signature checking are not modelled: `JwtMiddleware.Authenticate` stops at "verify this token".
  - Token generation at login is not modelled.
- Outside systems:
  - Push notifications are not sent. `CommentThread` returns the push it would send.
  - Mail, S3 uploads, logging and the HTTP layer (status codes, gin binding and context values) are not modelled.
- Request validation in internal/request/university.go:13-14 for pros and cons is not modelled. An empty bulk insert is a no-op rather than a database error.
- Util.GetCursorData: the source panics on a cursor without "_". The function requires one, and the list models only call it on such cursors.
- JwtMiddleware.GetToken: the source panics on a header without "Bearer ". The function requires one.
- Fresh ids: the methods that insert a row require its new id not to be present, as UUIDs make likely.
- Row keys:
  - Follower rows and subscription rows are keyed by (user, target) instead of by their own id.
  - The like/dislike counters of threads, comments and replies share one map keyed by target.
- Pagination:
  - Timestamps (RFC3339Nano) are decimal integer keys.
  - Without a cursor, the source orders by the key alone. The trending thread list orders by `ts.trending_score desc` alone with a cursor too (internal/repository/thread.go:314-315).
  - The model orders by (key, id) throughout, which agrees whenever keys differ. Where the source orders by the key alone, the database may return tied keys in any order. `ThreadList.TrendingWalkStalls` shows the trending walk never ending for each order of two tied threads.
- Thread list filters: the search (`ILIKE`), the user filter, the following filter and the joins that fill the thread data are not modelled. Only the order, seek, limit and cursor are.
- Search in the other lists: the `Search` (`ILIKE`) filter of the sub-thread list (internal/repository/subthread.go:53-60) and of the university-rating list (internal/repository/university.go:89-101) is not modelled by `SubThreads.GetList` or `Universities.GetList`.
- Sub-thread list: asking for both `isFollowing` and `excludeFollowing` repeats the join alias. The source's SQL then fails, and the model returns no page.
- Soft delete: a sub-thread is marked deleted and is no longer found by lookups. The visible list leaves deleted rows out.
- Auth.VerifyCheck: the auth service calls verification-record functions that internal/repository/user.go does not define. Only its `UserVerifyCode` variants exist.
  - Those functions are not part of this model.
  - The model uses the lookup the repository does define: the newest record for the email.
  - The record is then marked used by its id.
- Universities.MapRatingDetail: the lookup of a rating by id is not modelled, nor its BadRequest "University rating does not exist" (internal/service/university.go:368-391). The mapping is.
- Universities points: points keep insertion order.
- SubThreads.SubThreadService.UnFollowSubThread: a row that is not following is left as it is, as in the source's early return.
- Util.ExtractDomainFromEmail: which labels are kept is fixed by the dot count (in the function) and by the start position (in `Util.ExtractedDomainStart`), not by a single equation.
- The comment/reply activity table as written is modelled on values (`CommentActivity`) rather than as a class, since it is only needed for the finding below.

## Findings

| source | as written | input that shows it | evidently intended | confidence | as-written member | corrected member |
|---|---|---|---|---|---|---|
| internal/repository/thread.go:169-183, 519-534 | the comment and reply lookups filter on the request's thread id, but the updates filter only on comment (or reply) and user | one user likes comment "c" through thread "t1", then "t2", then "t1"; afterwards the like count is 1 while both rows say UNLIKE | one activity row per (comment or reply, user), found and updated by the same key | not executed | CommentActivity.CommentLikeThroughTwoThreads | ThreadSvc.ThreadService.ReactToComment |
| internal/repository/thread.go:311-315 | the trending cursor seeks on `trending_score <= ?` alone | two threads with equal trending score and limit 1: the second page shows the first thread again and gives the same cursor, forever | seek on (score, id) as the recency list does on (created_at, id) | not executed | ThreadList.TrendingWalkStalls | ThreadList.GetListWalk |
| internal/service/university.go:197-236 | the update checks that the caller has a rating for the university, then updates the rating whose id is in the URL | user "a" with rating "ra" updates rating "rb" of user "b": "rb" takes a's title and a's pros | update the caller's own rating found by the check | not executed | Universities.UpdateOverwritesOthersRating | Universities.UniversityService.UpdateUniversityRating |
