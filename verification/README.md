# Stars: goals, daily ratings and threaded comments

A Dafny model of the goal-tracking application in `stars/code`: the Go/gin back
end and the browser front end.

The back end's core is in `controllers/comment_controller.go` and
`controllers/goal_controller.go`.

- The handlers work on a `Store.Database` class. It holds the three MySQL tables
  (`star_goals`, `daily_ratings`, `comments`) as sequences of rows in insertion
  order, together with their auto-increment counters.
- Each handler is a method that changes those fields. It answers with a
  `Responses.Response`: a status code and a JSON body kept as the value it
  encodes.
- The SQL statements are functions over the tables, such as `FindGoal`,
  `SetGoalStars`, `InCategory`, `RatingSum` and `LatestRatings`.
- `Database.Valid` holds what the writers keep true:
  - ids are unique and below their counters;
  - every stored rating is in 1..5;
  - every reply follows a comment of the same goal that it replies to.

The comment tree (`buildNestedComments`) appears twice:

- as a reference-free definition, `CommentTree.Nest`: a node's children are the
  rows whose parent id is its id, in input order;
- as the map-filling method `CommentTree.BuildNested`, the two passes of the Go
  code. The Go code shares nodes by reference; here an id in a children list
  stands for such a reference.

`CommentTree.NestSerialises` connects the two: the JSON written from the roots
and the map is the forest `Nest` defines. The lemmas about `Nest` cover:

- which rows appear: exactly those that reach a top-level comment through parent ids;
- that each row appears once;
- that sibling order is input order;
- that orphans and parent cycles are dropped;
- how the reported total relates to the tree.

The front end's core is in `fronted/js/goals.js` and `fronted/js/api.js`:

- the five-star widget;
- the recursive rendering of the comment list, as a tree of records rather than HTML text;
- the node counter, as a class with the captured `count` field;
- the reply, cancel and expand/collapse buttons, as a class over the page state they change;
- the trim-then-reject validation of comments and replies;
- the new-goal form check;
- the in-place newest-first sort of daily ratings;
- the delete button;
- the endpoint path builders, and how a fetch result becomes a value or an error.

Handlers on the page produce a sequence of observable effects: alerts, requests,
reloads and navigation.

The gin route table in `routes/goal_routes.go` is written out as a dispatcher,
`Api.Dispatch`. Each path builder is proved to reach its handler, with an id
segment that `strconv.Atoi` parses back to the id the page used.

## Model

| member | source | states |
|---|---|---|
| Text.Trim | stars/code/fronted/js/goals.js:432 | `trim()` gives the empty string exactly when the input is all white space; otherwise the result neither starts nor ends with white space |
| Text.TrimStart | stars/code/fronted/js/goals.js:463 | the result is a suffix of the input, everything dropped in front is white space, and it does not start with white space |
| Text.TrimEnd | stars/code/fronted/js/goals.js:463 | the result is a prefix of the input, everything dropped behind is white space, and it does not end with white space |
| Text.TrimBlank | stars/code/fronted/js/goals.js:432-436 | trimming both ends leaves nothing exactly when the content is blank, which is when the alert is raised |
| Text.Atoi | stars/code/backend/controllers/comment_controller.go:31-35 | a parsed id comes only from an optionally signed run of decimal digits, and lies in Go's 64-bit int range |
| Text.AtoiDecimalString | stars/code/backend/controllers/goal_controller.go:106 | parsing the decimal text of any 64-bit id gives that id back |
| Text.DecimalString | stars/code/fronted/js/api.js:9 | the text of an id in a template literal is non-empty, starts with a digit or minus sign, and holds no slash |
| Api.Send | stars/code/fronted/js/api.js:23 | every request URL is the base URL followed by the endpoint path, with the verb and payload passed through |
| Api.GoalsByCategoryPath | stars/code/fronted/js/api.js:10 | the category path is the goals path, `/category/`, then the category |
| Api.DailyRatingPath | stars/code/fronted/js/api.js:12 | the rating path is the goal's path followed by `/daily-rating` |
| Api.DailyRatingsPath | stars/code/fronted/js/api.js:13 | the ratings path is the goal's path followed by `/daily-ratings` |
| Api.CommentsPath | stars/code/fronted/js/api.js:15 | the comments path is the goal's path followed by `/comments` |
| Api.Split | stars/code/backend/routes/goal_routes.go:15-29 | a path always has at least one segment |
| Api.SplitJoin | stars/code/backend/routes/goal_routes.go:17 | a segment without a slash splits as itself, and a slash after it ends it |
| Api.SplitTwo | stars/code/backend/routes/goal_routes.go:17 | two plain segments joined by a slash split back into those two |
| Api.SplitThree | stars/code/backend/routes/goal_routes.go:24 | three plain segments joined by slashes split back into those three |
| Api.GoalPathSegments | stars/code/fronted/js/api.js:9 | the goal path splits into `goals` and the id's text |
| Api.SuffixPathSegments | stars/code/fronted/js/api.js:12-15 | a goal path with a suffix splits into `goals`, the id's text and the suffix |
| Api.GoalPathRoutes | stars/code/backend/routes/goal_routes.go:17-19 | the goal path reaches GetGoalByID, UpdateGoal and DeleteGoal by verb, and the `:id` those handlers parse is the page's id |
| Api.SuffixDispatch | stars/code/backend/routes/goal_routes.go:24-29 | a path under a goal is routed by its three segments |
| Api.IdSegmentPlain | stars/code/backend/routes/goal_routes.go:20 | an id segment is never empty and never the static word `category`, so it cannot be taken for the category route |
| Api.AddRatingPathRoute | stars/code/backend/routes/goal_routes.go:24 | POST to the rating path reaches AddDailyRating with the page's id |
| Api.RatingsPathRoute | stars/code/backend/routes/goal_routes.go:25 | GET of the ratings path reaches GetDailyRatings with the page's id |
| Api.CommentPathsRoute | stars/code/backend/routes/goal_routes.go:28-29 | POST and GET of the comments path reach CreateComment and GetCommentsByGoalID with the page's id |
| Api.CategoryPathSegments | stars/code/fronted/js/api.js:10 | a category path splits into `goals`, `category` and the category |
| Api.CategoryPathRoutes | stars/code/backend/routes/goal_routes.go:20 | a non-empty category without a slash reaches GetGoalsByCategory unchanged |
| Api.OneSegmentDispatch | stars/code/backend/routes/goal_routes.go:15-16 | a one-segment path is routed by that segment |
| Api.GoalsPathRoutes | stars/code/backend/routes/goal_routes.go:15-16 | the goals path reaches goal creation by POST and the goal list by GET |
| Api.StarsPathRoute | stars/code/backend/routes/goal_routes.go:22 | the stars path reaches GetTotalStars |
| Api.Settle | stars/code/fronted/js/api.js:21-32 | a request yields a body only when the fetch succeeded with an ok status, and the body is the server's |
| Api.NonOkThrows | stars/code/fronted/js/api.js:24-26 | a non-ok status always throws with that status and never yields a body, in the helper as written and as corrected |
| Api.DeleteSuccessThrows | stars/code/fronted/js/api.js:79-95 | as written, the DELETE helper throws on the 204 empty answer of a deletion that took place |
| Api.SettleEmptyOk | stars/code/fronted/js/api.js:85-89 | corrected DELETE helper: an ok status always settles with the body, an empty one included, and every other case settles as before |
| Responses.SliceJson | stars/code/backend/controllers/goal_controller.go:235-264 | a Go slice grown from nil is written as null exactly when nothing was appended, and otherwise as its contents |
| Store.FindGoal | stars/code/backend/controllers/goal_controller.go:114-115 | the lookup by id finds a stored goal with that id, or reports that none has it |
| Store.FindGoalRow | stars/code/backend/controllers/goal_controller.go:114-115 | with unique ids, the lookup finds the one row with that id |
| Store.CountId | stars/code/backend/controllers/goal_controller.go:167 | the rows matched by an id never outnumber the rows |
| Store.CountIdZero | stars/code/backend/controllers/goal_controller.go:173-176 | no row is affected exactly when no goal has the id, so the 404 means "no such goal" |
| Store.SetGoalFieldsEffect | stars/code/backend/controllers/goal_controller.go:159-160 | the full update changes only the addressed goal, giving it the body's title, description, category and stars and a new update time, and keeps ids unique |
| Store.SetGoalFieldsKeeps | stars/code/backend/controllers/goal_controller.go:159-160 | the full update keeps every id below the counter and every other goal as found before |
| Store.SetGoalStarsEffect | stars/code/backend/controllers/goal_controller.go:353-354 | the stars update changes only the addressed goal's stars and update time, and keeps ids unique |
| Store.SetGoalStarsKeeps | stars/code/backend/controllers/goal_controller.go:353-354 | the stars update keeps every id below the counter and every other goal as found before |
| Store.FindAfterMap | stars/code/backend/controllers/goal_controller.go:159-160 | a rewrite of the addressed row that keeps ids leaves every other lookup unchanged |
| Store.DeleteGoalRows | stars/code/backend/controllers/goal_controller.go:201-202 | the delete removes exactly as many rows as carry the id |
| Store.DeleteGoalRowsIn | stars/code/backend/controllers/goal_controller.go:201-202 | the delete keeps exactly the rows with another id |
| Store.DeleteGoalRowsUnique | stars/code/backend/controllers/goal_controller.go:201-202 | the rows left by the delete still have unique ids |
| Store.DeleteGoalRowsEffect | stars/code/backend/controllers/goal_controller.go:201-202 | after the delete no goal has the id, and every other goal is found unchanged |
| Store.SumStarsChange | stars/code/backend/controllers/goal_controller.go:276-278 | rewriting one goal's stars moves the total by the difference and by nothing else |
| Store.SumStarsSame | stars/code/backend/controllers/goal_controller.go:276-278 | tables with the same stars row by row have the same total |
| Store.InCategory | stars/code/backend/controllers/goal_controller.go:237-238 | the category query never returns more rows than the table holds, and every row it returns has that category |
| Store.InCategoryExact | stars/code/backend/controllers/goal_controller.go:237-238 | the category query returns exactly the goals of that category, each as often as it is stored |
| Store.InCategoryCount | stars/code/backend/controllers/goal_controller.go:237-238 | each goal occurs in the answer as often as in the table when it has the category, and not at all otherwise |
| Store.InCategoryOrder | stars/code/backend/controllers/goal_controller.go:237-238 | the category query keeps table order |
| Store.RatingsOfIn | stars/code/backend/controllers/goal_controller.go:397-398 | the goal's ratings are exactly the stored ratings with that goal id, each as often as it is stored |
| Store.RatingsOfCount | stars/code/backend/controllers/goal_controller.go:397-398 | each rating occurs in the goal's ratings as often as in the table when it has the goal id, and not at all otherwise |
| Store.RatingSumBounds | stars/code/backend/controllers/goal_controller.go:345-351 | with every rating in 1..5, a goal's rating sum lies between one and five times the number of its ratings |
| Store.UpsertSum | stars/code/backend/controllers/goal_controller.go:336-351 | an inserted rating adds its value to its goal's sum; a rating written over a stored one replaces the old value in that goal's sum; other goals' sums do not move |
| Store.RatingSumChange | stars/code/backend/controllers/goal_controller.go:336-342 | rewriting one rating row moves only its own goal's sum, by the difference |
| Store.InsertByDate | stars/code/backend/controllers/goal_controller.go:397-398 | inserting a rating into a list adds exactly that rating |
| Store.InsertByDateSorted | stars/code/backend/controllers/goal_controller.go:397-398 | inserting into a newest-first list keeps it newest first |
| Store.SortByDateDesc | stars/code/backend/controllers/goal_controller.go:397-398 | ORDER BY date DESC returns a permutation of its input |
| Store.SortByDateDescSorted | stars/code/backend/controllers/goal_controller.go:397-398 | ORDER BY date DESC returns the rows newest first |
| Store.LatestRatingsOrder | stars/code/backend/controllers/goal_controller.go:397-398 | the latest-ratings query answers newest first, with seven ratings when the goal has more and all of them otherwise |
| Store.LatestRatingsOfGoal | stars/code/backend/controllers/goal_controller.go:397-398 | every rating the latest-ratings query returns is a stored rating of that goal |
| Store.LatestRatingsNewest | stars/code/backend/controllers/goal_controller.go:397-398 | a rating of the goal that the LIMIT leaves out is no newer than any rating that is returned |
| Store.CommentsOf | stars/code/backend/controllers/comment_controller.go:126-127 | the comment query never returns more rows than the table holds, and every row it returns belongs to that goal |
| Store.CommentsOfIn | stars/code/backend/controllers/comment_controller.go:126-127 | the comment query returns exactly the comments of that goal |
| Store.CommentsOfUnique | stars/code/backend/controllers/comment_controller.go:126-127 | the comments of one goal keep unique ids |
| Store.CommentsOfOrder | stars/code/backend/controllers/comment_controller.go:126-127 | the comments of one goal keep creation order |
| Store.CommentsOfPrecede | stars/code/backend/controllers/comment_controller.go:58-70 | in one goal's comments, every reply still follows the comment it replies to |
| Store.RepliesPrecedeSnoc | stars/code/backend/controllers/comment_controller.go:58-78 | appending a reply whose parent is stored under the same goal keeps replies after their parents |
| Store.Database.constructor | stars/code/backend/controllers/goal_controller.go:43-49 | a new store has empty tables that satisfy the invariant, and auto-increment counters starting at 1 |
| GoalController.CreateGoal | stars/code/backend/controllers/goal_controller.go:26-54 | a body that does not bind gives 400 and no change. Otherwise one goal with the fresh id and both timestamps `now` is appended, and the answer is the body with that id |
| GoalController.GetGoalByID | stars/code/backend/controllers/goal_controller.go:104-129 | a non-numeric id gives 400, an unknown id gives 404, and otherwise the stored goal with that id |
| GoalController.NoMatchNoChange | stars/code/backend/controllers/goal_controller.go:173-176 | an update or delete keyed by an id no goal has changes nothing |
| GoalController.DeleteKeepsAll | stars/code/backend/controllers/goal_controller.go:215-218 | deleting an id no goal has keeps the table as it was |
| GoalController.UpdateGoal | stars/code/backend/controllers/goal_controller.go:143-181 | a bad id or bad body gives 400 and no change, and an unknown goal gives 404 and no change. Otherwise the goal takes the body's fields and `now`, every other goal is unchanged, and the answer carries the path id whatever id the body had |
| GoalController.DeleteGoal | stars/code/backend/controllers/goal_controller.go:192-222 | a bad id gives 400 and no change. Afterwards no goal has the id and every other goal is unchanged. An unknown id gives 404 and no change, and a deleted one gives 204 without a body |
| GoalController.GetGoalsByCategory | stars/code/backend/controllers/goal_controller.go:232-265 | the rows loop answers with the category query's goals in table order, null when none matched |
| GoalController.GetTotalStars | stars/code/backend/controllers/goal_controller.go:274-287 | the answer is the sum of all goals' stars, which is 0 for an empty table |
| GoalController.AddDailyRating | stars/code/backend/controllers/goal_controller.go:301-364 | the checks fail in order with no change: bad id 400, bad body 400, rating outside 1..5 400 (before the goal is looked up), unknown goal 404. Otherwise the rating is upserted, the goal's stars become the sum of all its ratings, and every other goal is unchanged |
| GoalController.UpsertValid | stars/code/backend/controllers/goal_controller.go:336-342 | the upsert keeps rating ids unique and below the counter, and every stored rating in 1..5 |
| GoalController.GetDailyRatings | stars/code/backend/controllers/goal_controller.go:375-425 | bad id 400, unknown goal 404. Otherwise exactly the latest-ratings query's rows: one to seven of the goal's own stored ratings, newest first, and null exactly when it has none |
| GoalController.TotalAfterRating | stars/code/backend/controllers/goal_controller.go:353-359 | a recorded rating moves the star total by the change in that goal's stars and by nothing else |
| CommentTree.UniqueIdsDistinct | stars/code/backend/controllers/comment_controller.go:177-186 | rows with unique ids are pairwise different |
| CommentTree.Find | stars/code/backend/controllers/comment_controller.go:195 | the map lookup by id finds a row with that id, or reports that none has it |
| CommentTree.FindRow | stars/code/backend/controllers/comment_controller.go:195 | with unique ids, the lookup by a row's id finds that row |
| CommentTree.RootRows | stars/code/backend/controllers/comment_controller.go:189-193 | there are never more top-level rows than rows |
| CommentTree.ChildRows | stars/code/backend/controllers/comment_controller.go:195-197 | there are never more replies to a comment than rows |
| CommentTree.RootRowsIn | stars/code/backend/controllers/comment_controller.go:189-193 | the top-level rows are exactly the rows without a parent id |
| CommentTree.ChildRowsIn | stars/code/backend/controllers/comment_controller.go:195-197 | the replies to an id are exactly the rows with that parent id |
| CommentTree.UpAdd | stars/code/backend/controllers/comment_controller.go:195 | following parent ids a + b times is following them a times, then b times |
| CommentTree.UpDefinedBelow | stars/code/backend/controllers/comment_controller.go:195 | a row with a d-th ancestor has every nearer ancestor |
| CommentTree.RootedNotCyclic | stars/code/backend/controllers/comment_controller.go:195 | a row that reaches a top-level comment is not its own proper ancestor |
| CommentTree.AncestorsDistinct | stars/code/backend/controllers/comment_controller.go:195 | the ancestors of a row that reaches a top-level comment are pairwise different |
| CommentTree.ChainBound | stars/code/backend/controllers/comment_controller.go:195 | a row's distance from its top-level comment is less than the number of rows, so the tree is finite |
| CommentTree.ChildRootedAt | stars/code/backend/controllers/comment_controller.go:195-197 | a reply to a row that reaches a top-level comment has that row as parent and reaches it one step further |
| CommentTree.ChildrenRooted | stars/code/backend/controllers/comment_controller.go:195-197 | every reply to such a row reaches a top-level comment one step further |
| CommentTree.SubtreesIndex | stars/code/backend/controllers/comment_controller.go:195-197 | the i-th tree of a list of rows is the node of the i-th row |
| CommentTree.SubtreeShape | stars/code/backend/controllers/comment_controller.go:177-186 | a node carries its row unchanged and has one child per reply to it |
| CommentTree.SubtreeChild | stars/code/backend/controllers/comment_controller.go:195-197 | the i-th child of a node is the node of the i-th reply to its row |
| CommentTree.NestShape | stars/code/backend/controllers/comment_controller.go:189-193 | the output has one tree per top-level row |
| CommentTree.NestTree | stars/code/backend/controllers/comment_controller.go:189-193 | the i-th tree of the output is the node of the i-th top-level row |
| CommentTree.RootsRooted | stars/code/backend/controllers/comment_controller.go:189-193 | every top-level row is its own top-level comment |
| CommentTree.FlatAllIn | stars/code/backend/controllers/comment_controller.go:171-202 | a row is in a forest exactly when it is in one of its trees |
| CommentTree.FlatAllAppend | stars/code/backend/controllers/comment_controller.go:171-202 | adding a tree to a forest adds that tree's rows after the others |
| CommentTree.FlatIn | stars/code/backend/controllers/comment_controller.go:171-202 | a row is in a tree exactly when it heads the tree or is in a child's tree |
| CommentTree.SubtreeDescends | stars/code/backend/controllers/comment_controller.go:195-197 | every row in a node's tree is that row or a descendant of it through parent ids |
| CommentTree.SubtreesDescend | stars/code/backend/controllers/comment_controller.go:195-197 | every row in the trees of a list of rows descends from one of them |
| CommentTree.SubtreeContains | stars/code/backend/controllers/comment_controller.go:195-197 | every descendant of a row through parent ids is in that row's tree |
| CommentTree.ChildOnPath | stars/code/backend/controllers/comment_controller.go:195-197 | a descendant k > 0 steps below a row lies k - 1 steps below one of its replies, whose node is a child of the row's node |
| CommentTree.SiblingsDisjoint | stars/code/backend/controllers/comment_controller.go:195-197 | two replies to the same comment have no descendant in common unless they are the same reply |
| CommentTree.SiblingsApart | stars/code/backend/controllers/comment_controller.go:195-197 | if one reply were an ancestor of its sibling, their parent would be its own ancestor |
| CommentTree.RootsDisjoint | stars/code/backend/controllers/comment_controller.go:189-193 | two top-level comments have no descendant in common unless they are the same |
| CommentTree.SubtreeDistinct | stars/code/backend/controllers/comment_controller.go:195-197 | no row occurs twice in a node's tree |
| CommentTree.ChildrenDistinct | stars/code/backend/controllers/comment_controller.go:195-197 | no row occurs twice in the trees of a node's children taken together |
| CommentTree.ChildTreesDistinct | stars/code/backend/controllers/comment_controller.go:195-197 | no row occurs twice in the tree of any child |
| CommentTree.ChildTreeDistinct | stars/code/backend/controllers/comment_controller.go:195-197 | no row occurs twice in the tree of the i-th child |
| CommentTree.ChildTreesApart | stars/code/backend/controllers/comment_controller.go:195-197 | the trees of two different children share no row |
| CommentTree.ChildTreesDisjoint | stars/code/backend/controllers/comment_controller.go:195-197 | a row in the tree of the i-th child is not in the tree of a later child |
| CommentTree.NotBelowItself | stars/code/backend/controllers/comment_controller.go:195-197 | a row is not in the tree of any of its replies |
| CommentTree.UniqueSnoc | stars/code/backend/controllers/comment_controller.go:72-78 | appending a row with a fresh id keeps ids unique |
| CommentTree.ChildRowsOrder | stars/code/backend/controllers/comment_controller.go:195-197 | the replies to a comment keep input order |
| CommentTree.ChildRowsIds | stars/code/backend/controllers/comment_controller.go:195-197 | the replies to a comment have unique ids |
| CommentTree.ChildRowsUnique | stars/code/backend/controllers/comment_controller.go:195-197 | the replies to a comment have unique ids, are pairwise different, and keep input order |
| CommentTree.RootRowsOrder | stars/code/backend/controllers/comment_controller.go:189-193 | the top-level rows keep input order |
| CommentTree.RootRowsIds | stars/code/backend/controllers/comment_controller.go:189-193 | the top-level rows have unique ids |
| CommentTree.RootRowsUnique | stars/code/backend/controllers/comment_controller.go:189-193 | the top-level rows have unique ids, are pairwise different, and keep input order |
| CommentTree.ForestDistinct | stars/code/backend/controllers/comment_controller.go:189-197 | trees without duplicates that share no row flatten without duplicates |
| CommentTree.NestDistinct | stars/code/backend/controllers/comment_controller.go:189-197 | no row occurs twice in the output |
| CommentTree.NestMembers | stars/code/backend/controllers/comment_controller.go:189-197 | the output holds exactly the input rows that reach a top-level comment by parent ids |
| CommentTree.NestCount | stars/code/backend/controllers/comment_controller.go:189-197 | the output has as many nodes as there are rows that reach a top-level comment, and no more nodes than rows |
| CommentTree.OrphanDropped | stars/code/backend/controllers/comment_controller.go:195 | a reply whose parent id names no input row is not in the output |
| CommentTree.CycleDropped | stars/code/backend/controllers/comment_controller.go:195 | a row on a parent-id cycle is not in the output |
| CommentTree.NestCountAllRooted | stars/code/backend/controllers/comment_controller.go:189-197 | when every row reaches a top-level comment, the output has one node per row |
| CommentTree.Heads | stars/code/backend/controllers/comment_controller.go:189-193 | the heads of a list of trees are their root rows, in order |
| CommentTree.NestHeads | stars/code/backend/controllers/comment_controller.go:189-193 | the trees of the output are headed by the top-level rows, in input order |
| CommentTree.SubtreeHeads | stars/code/backend/controllers/comment_controller.go:195-197 | a node's children are headed by the replies to its row, in input order |
| CommentTree.RootsOnceInOrder | stars/code/backend/controllers/comment_controller.go:189-193 | every top-level row heads exactly one tree of the output, and the trees keep input order |
| CommentTree.RepliesOnceInOrder | stars/code/backend/controllers/comment_controller.go:195-197 | every reply to a row in the output heads exactly one child of that row's node, and siblings keep input order |
| CommentTree.Ids | stars/code/backend/controllers/comment_controller.go:189-197 | the ids of a list of rows, one per row, in order |
| CommentTree.BuildNested | stars/code/backend/controllers/comment_controller.go:171-202 | the roots list the top-level ids in input order, the map has an entry for every row, and each entry holds its row unchanged and the ids of the replies to it in input order |
| CommentTree.IndexRows | stars/code/backend/controllers/comment_controller.go:177-186 | the first pass gives every row an entry of its own, with its fields unchanged and no children |
| CommentTree.LinkRows | stars/code/backend/controllers/comment_controller.go:189-197 | the second pass leaves the roots as the top-level ids and every entry listing all of its replies, keeping the keys |
| CommentTree.LinkRow | stars/code/backend/controllers/comment_controller.go:190-197 | one step adds a top-level row to the roots, or appends the row to its parent's entry when that entry exists, and otherwise drops it |
| CommentTree.LinkedSkip | stars/code/backend/controllers/comment_controller.go:189-195 | a top-level row, or a row whose parent has no entry, changes no entry |
| CommentTree.LinkedAppend | stars/code/backend/controllers/comment_controller.go:195-197 | appending a row to its parent's entry keeps every entry equal to its replies so far |
| CommentTree.RootRowsStep | stars/code/backend/controllers/comment_controller.go:190-193 | one more row adds itself to the top-level rows exactly when it has no parent id |
| CommentTree.ChildRowsStep | stars/code/backend/controllers/comment_controller.go:195-197 | one more row adds itself to the replies of exactly its parent |
| CommentTree.IdsSnoc | stars/code/backend/controllers/comment_controller.go:189-197 | the ids of two lists joined are the ids of each, joined |
| CommentTree.UnfoldsUnique | stars/code/backend/controllers/comment_controller.go:171-202 | following the references from one entry writes out only one tree |
| CommentTree.UnfoldsAllUnique | stars/code/backend/controllers/comment_controller.go:171-202 | following a list of references writes out only one forest |
| CommentTree.IndexedAt | stars/code/backend/controllers/comment_controller.go:177-197 | a built map has each row's entry with its replies' ids |
| CommentTree.IdsTail | stars/code/backend/controllers/comment_controller.go:189-197 | the ids of a non-empty list are the first row's id, then the ids of the rest |
| CommentTree.SubtreeUnfolds | stars/code/backend/controllers/comment_controller.go:171-202 | a node of the reference-free tree is what the encoder writes from its row's entry |
| CommentTree.SubtreesUnfold | stars/code/backend/controllers/comment_controller.go:171-202 | the nodes of a list of rows are what the encoder writes from their ids |
| CommentTree.NestSerialises | stars/code/backend/controllers/comment_controller.go:171-202 | the JSON written from the roots and the map that the method builds is the reference-free forest, tree for tree |
| CommentTree.TotalBoundsTree | stars/code/backend/controllers/comment_controller.go:153-168 | the reported total, the number of rows, is at least the number of nodes in the output |
| CommentTree.PrecedingRowRooted | stars/code/backend/controllers/comment_controller.go:58-70 | when replies follow their parents, every row reaches a top-level comment |
| CommentTree.TotalMatchesTree | stars/code/backend/controllers/comment_controller.go:153-168 | for rows stored through CreateComment, the reported total equals the number of nodes in the tree |
| CommentController.ParentQuery | stars/code/backend/controllers/comment_controller.go:59-61 | the parent check finds a comment with that id under that goal, or reports that none exists |
| CommentController.CreateComment | stars/code/backend/controllers/comment_controller.go:29-93 | the checks fail in order with no change: bad id 400, bad body 400, unknown goal 404, a parent not stored under the goal 404. Otherwise exactly one comment is appended, with the fresh id, the path's goal id, the body's parent id and content and `now`, and it is what the answer carries |
| CommentController.StoredCommentShown | stars/code/backend/controllers/comment_controller.go:104-163 | every stored comment appears in its goal's tree |
| CommentController.GoalComments | stars/code/backend/controllers/comment_controller.go:126-127 | one goal's comments keep unique ids, replies after their parents, and table order |
| CommentController.GetCommentsByGoalID | stars/code/backend/controllers/comment_controller.go:104-163 | bad id 400, unknown goal 404. Otherwise the goal's comments nested as the forest (null without top-level comments), with a total equal to the rows and to the tree's nodes |
| CommentView.CssFor | stars/code/fronted/js/goals.js:341-351 | depth 0 gets the plain class; a deeper comment gets a reply class whose level is its depth capped at 5 |
| CommentView.RenderAll | stars/code/fronted/js/goals.js:346 | one rendered item per comment |
| CommentView.RenderAllIndex | stars/code/fronted/js/goals.js:346 | the i-th item is the i-th comment rendered at that level |
| CommentView.RenderWellFormed | stars/code/fronted/js/goals.js:339-373 | at every depth, each comment carries its id and text, the class fitting its depth, a reply button and a hidden reply form; toggle and replies container come exactly with replies, which are rendered one level deeper |
| CommentView.RenderIds | stars/code/fronted/js/goals.js:339-373 | rendering shows every comment of a tree once, in pre-order |
| CommentView.RenderAllIds | stars/code/fronted/js/goals.js:376 | rendering shows every comment of the forest once, in pre-order |
| CommentView.LoadComments | stars/code/fronted/js/goals.js:327-393 | a failed request shows the error; a missing, null or empty list shows the placeholder; otherwise the header shows the server's total and the list the top-level comments rendered at level 0 |
| CommentView.PageShowsEveryComment | stars/code/fronted/js/goals.js:327-393 | fed the server's answer, the page shows the placeholder exactly when the goal has no comment; otherwise every comment of the goal appears, nothing else does, and the header's total is the number shown |
| CommentView.Counter.constructor | stars/code/fronted/js/goals.js:417 | the count starts at 0 |
| CommentView.Counter.Traverse | stars/code/fronted/js/goals.js:419-424 | visiting a comment adds the number of nodes in its tree to the count |
| CommentView.CountComments | stars/code/fronted/js/goals.js:416-428 | the count is the number of nodes in the forest, each counted once |
| Page.Calls | stars/code/fronted/js/api.js:98-131 | the requests a handler itself sends (ReloadComments stands for loadComments' own GET) are never more than its effects |
| Page.CallsIn | stars/code/fronted/js/api.js:98-131 | a handler itself sends a request exactly when a call of it is among its effects |
| Page.NoCalls | stars/code/fronted/js/goals.js:434-437 | effects without a call send nothing |
| Page.CallsFront | stars/code/fronted/js/goals.js:440-458 | a request followed by effects that send nothing is the only request sent |
| CommentControls.CommentFlow | stars/code/fronted/js/goals.js:431-459 | empty content only raises the alert and sends nothing. Otherwise exactly one POST of a top-level comment is sent, followed by clear, reload and success on an ok answer, or the failure alert otherwise |
| CommentControls.ReplyFlow | stars/code/fronted/js/goals.js:462-488 | empty content only raises the alert. Otherwise exactly one POST naming the parent is sent, followed by reload and success on an ok answer, or the failure alert otherwise |
| CommentControls.SubmitComment | stars/code/fronted/js/goals.js:431-459 | nothing is sent exactly when the input is all white space |
| CommentControls.SubmitReply | stars/code/fronted/js/goals.js:462-488 | nothing is sent exactly when the input is all white space |
| CommentControls.CommentSent | stars/code/fronted/js/goals.js:431-459 | whatever is sent is a POST to the goal's comments URL of a top-level comment whose text is the trimmed input, non-empty and without white space at either end |
| CommentControls.ReplySent | stars/code/fronted/js/goals.js:462-488 | the same for a reply, whose payload names its parent |
| CommentControls.Flip | stars/code/fronted/js/goals.js:298 | a click hides a shown element and shows a hidden one |
| CommentControls.FlipTwice | stars/code/fronted/js/goals.js:298 | two clicks restore a display a click already set; the first click on an unset display hides it |
| CommentControls.ToggleLabel | stars/code/fronted/js/goals.js:410 | the toggle reads 展开回复 exactly when the replies are hidden and 收起回复 exactly when they are shown |
| CommentControls.ReplyControls.constructor | stars/code/fronted/js/goals.js:361-368 | after loading, every reply form is hidden with an empty draft, and every replies container is shown with a collapse button |
| CommentControls.ReplyControls.ClickReply | stars/code/fronted/js/goals.js:298 | the reply button flips only its own form, showing it exactly when it was hidden |
| CommentControls.ReplyControls.ClickCancel | stars/code/fronted/js/goals.js:316-318 | cancel hides its form and empties its draft, and nothing else changes |
| CommentControls.ReplyControls.ClickToggle | stars/code/fronted/js/goals.js:405-410 | the toggle flips its replies container and relabels itself to match, and does nothing without a container |
| CommentControls.ReplyControls.EditDraft | stars/code/fronted/js/goals.js:304 | typing changes only that form's draft |
| CommentControls.ReplyControls.ClickSubmit | stars/code/fronted/js/goals.js:303-305 | submit sends the draft as a reply to that comment, and sends nothing exactly when the draft is blank |
| GoalView.FilledStars | stars/code/fronted/js/goals.js:10 | the number of filled stars is the star count clamped to 0..5 |
| GoalView.RenderStarRating | stars/code/fronted/js/goals.js:6-14 | exactly five stars numbered 1 to 5 in order, star i filled exactly when i is at most the star count, so the filled ones come first |
| GoalView.FullWidgetAfterFiveRatings | stars/code/backend/controllers/goal_controller.go:345-359 | a goal whose stars were recomputed from five or more ratings shows a full widget |
| GoalView.CreateGoalFlow | stars/code/fronted/js/goals.js:491-531 | an empty title or category only raises the alert and sends nothing. Otherwise exactly one POST of the goal with zero stars is sent, followed by success and a reset on an ok answer, or the failure alert otherwise |
| GoalView.DeleteGoalFlow | stars/code/fronted/js/goals.js:557-571 | as written: one DELETE of the goal's URL; success and the move to the list only when the helper yields a body |
| GoalView.DeletedGoalReportedFailed | stars/code/fronted/js/goals.js:557-571 | as written, a deletion that took place (204, no body) is reported as failed, and the page does not leave |
| GoalView.DeleteGoalFlowFixed | stars/code/fronted/js/goals.js:557-571 | corrected: one DELETE; success and the move to the list whenever the corrected helper succeeds |
| GoalView.DeleteReportedIffOk | stars/code/fronted/js/goals.js:557-571 | corrected: the deletion is announced and the page leaves exactly when the server answered ok, and the failure is announced exactly otherwise |
| GoalView.SortNewestFirst | stars/code/fronted/js/goals.js:194 | the in-place sort leaves the ratings newest first and a permutation of what they were |
| GoalView.MoveAhead | stars/code/fronted/js/goals.js:194 | one insertion step extends the newest-first prefix by one and keeps the ratings |
| GoalView.StarText | stars/code/fronted/js/goals.js:200 | `'⭐'.repeat(n)` is n stars and nothing else |
| GoalView.Lines | stars/code/fronted/js/goals.js:197-202 | one line per rating, with its date and one star per rating point |
| GoalView.LoadDailyRatings | stars/code/fronted/js/goals.js:183-215 | a failed request, a body that is no list, or a negative rating shows the error. A null or empty list shows the placeholder. Otherwise the lines are a newest-first permutation of the ratings, one star per point |
| Store.SetGoalFields | stars/code/backend/controllers/goal_controller.go:159 | the goal UPDATE changes only the rows with that id: they get the body's title, description, category and stars and updated_at = now, and keep id and created_at |
| Store.SetGoalStars | stars/code/backend/controllers/goal_controller.go:354 | the stars UPDATE changes only the rows with that id: they get the new stars and updated_at = now, and keep every other column |
| Store.SumStars | stars/code/backend/controllers/goal_controller.go:277 | COALESCE(SUM(stars), 0) is 0 on an empty table and never negative when no goal has negative stars |
| Store.RatingsOf | stars/code/backend/controllers/goal_controller.go:397 | the ratings query never returns more rows than the table holds, and every row belongs to that goal |
| Store.RatingSum | stars/code/backend/controllers/goal_controller.go:346 | COALESCE(SUM(rating), 0) is 0 for a goal without ratings |
| Store.Upsert | stars/code/backend/controllers/goal_controller.go:336-337 | without a (goal, date) clash the row is appended; on a clash only that row changes, taking the new rating and created_at and keeping its id, goal and date |
| Store.LatestRatings | stars/code/backend/controllers/goal_controller.go:397 | LIMIT 7: at most seven rows, and no more than the goal has |
| CommentTree.Subtree | stars/code/backend/controllers/comment_controller.go:171-202 | a comment's subtree holds that comment and one child per stored reply to it |
| CommentTree.Subtrees | stars/code/backend/controllers/comment_controller.go:171-202 | one subtree per comment it is given |
| CommentTree.Nest | stars/code/backend/controllers/comment_controller.go:171-202 | buildNestedComments returns one tree per top-level comment |
| CommentTree.CountTotalComments | stars/code/backend/controllers/comment_controller.go:166-168 | the total is the number of rows, and with unique ids it is never less than the number of comments in the nested answer |
| CommentView.RenderComment | stars/code/fronted/js/goals.js:339-373 | a rendered comment shows its id, content and date, the level's style, a reply button and a hidden reply form; a toggle and a replies container exactly when it has replies, one item per reply |
| Api.GoalByIdPath | stars/code/fronted/js/api.js:9 | GOAL_BY_ID is the goals path, a slash and one more segment without a slash |
| Api.Dispatch | stars/code/backend/routes/goal_routes.go:15-29 | a path without a leading slash reaches no route; PUT reaches only UpdateGoal and DELETE only DeleteGoal |
| Api.Match | stars/code/backend/routes/goal_routes.go:15-29 | every route lies under /goals or is /stars, and each verb reaches only the handlers registered for it |

## Left out

- Go's `database/sql` error paths (every 500 answer: failed queries, scans, `LastInsertId`, `RowsAffected`) are not modelled; the in-memory tables never fail.
- GetGoals (goal_controller.go:63-92) and the goal-list page are not part of this model. Nothing in them decides anything beyond listing.
- The first `loadComments` (goals.js:219-288) is shadowed by the second and is not modelled.
- The comment query's `ORDER BY created_at ASC` is taken as table order. Rows share one clock, so insertion order and creation order agree except for ties within one clock tick, which are not modelled.
- SQL string comparison is exact: MySQL collations that equate case or trailing spaces in `category` are not modelled.
- `NOW()`, `time.Now()`, dates and locale formatting are an abstract integer `now` or `date` that orders like the instant it stands for.
- Go's `int` and MySQL's integer columns are unbounded here: sums of stars and ratings do not overflow.
- JavaScript numbers are unbounded integers: ids above 2^53 and non-integer values are not modelled.
- `RowsAffected` is read as the number of matched rows. MySQL's default counts changed rows, so an UPDATE whose values equal the stored ones would answer 404 in MySQL but 200 here.
- `ON DUPLICATE KEY UPDATE`: the unique key is not in the source, so the row a rating collides with is a parameter `clash` of GoalController.AddDailyRating and Store.Upsert.
- `LastInsertId` is an auto-increment counter per table, starting at 1.
- Deleting a goal leaves its ratings and comments in place (no cascade is visible in the source); the model does the same.
- URL encoding, `.`/`..` segments and trailing-slash redirects of the router are not modelled; a category is routed unchanged only when it is one plain segment (Api.CategoryPathRoutes).
- The HTML text, escaping of comment content, `alert`, `console`, event wiring and `async`/`await` are abstract: markup is a tree of records, page behaviour is a sequence of effects.
- The rendered markup of the modelled `loadComments` has no cancel button; CommentControls.ReplyControls.ClickCancel models the handler as bound, for markup that has one.
- CommentControls.ReplyControls.constructor takes the sets of rendered comment ids rather than reading the DOM.
- `parseInt` of the ids read from `data-` attributes and of `goalId` is taken to give back the integer id the markup was rendered with.
- Store.LatestRatings: when the goal's ratings share a date, the rows LIMIT 7 keeps are taken in table order; MySQL leaves that choice unspecified.
- GoalView.SortNewestFirst: does not state that ratings with the same date keep their order (the sort is stable, but only sortedness and permutation are proved).
- The LLM scripts, server startup, CORS, database configuration and static file server are outside the modelled behaviour.
- GoalView.LoadDailyRatings: a `date` that does not parse (`NaN` comparisons) is not modelled; dates are integers.

## Findings

| source | as written | input that shows it | evidently intended | confidence | as-written member | corrected member |
|---|---|---|---|---|---|---|
| stars/code/fronted/js/api.js:79-95 | the DELETE helper calls `response.json()` on every ok answer, but DeleteGoal answers a successful deletion with 204 and no body (goal_controller.go:221), so parsing throws and deleteGoal reports failure | DELETE of an existing goal: the server answers 204 with an empty body | an ok answer with an empty body counts as success, and the page announces the deletion and leaves for the goal list | not executed | Api.DeleteSuccessThrows, GoalView.DeletedGoalReportedFailed | Api.SettleEmptyOk, GoalView.DeleteGoalFlowFixed, GoalView.DeleteReportedIffOk |
