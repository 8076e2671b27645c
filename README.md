# Typescript-Backend: a verified model of its business rules

This project models the rules of an Express and Mongoose shop-and-learning
backend. It has products, blogs and courses with comments, a shopping
basket, discount codes ("offs"), OTP login with role bootstrap, categories,
and permission-checked routes. The MongoDB collections become in-memory
sequences held in classes. Every handler becomes a method that answers with
an `Outcome` (Ok, Created, BadRequest, Unauthorized, Forbidden, NotFound,
Conflict, InternalError). The pure parts are functions with lemmas:
the request middlewares, the upload filter, the permission rule and the DTO
validators.

Modules, one per area of the source:

- `Common`, `Models`, `Strings`, `Requests`: shared vocabulary.
  - identifiers and outcomes;
  - `$pull` and `[...new Set()]`;
  - the documents;
  - JavaScript `split`, `trim` and ASCII case folding;
  - the request object.
- `Basket`: the user's basket of product and course line items.
- `Reactions`, `Scores`: the like / dislike / bookmark toggles and the
  `floor((5 + Σscore) / (n + 1))` average score, which the product, blog
  and course handlers share.
- `Products`, `Blogs`, `Courses`: the handlers of those three controllers
  that carry rules.
- `Coupons`: discount codes, their usage counter and the discount they
  copy onto a product or course.
- `Auth`: OTP issue and check, registration, login and the first-three-
  accounts-are-admins rule.
- `StringToArray`, `AuthMiddleware`, `PermissionGuard`, `Uploads`: the
  middlewares and the upload configuration.
- `Categories`, `Comments`: category removal, update and children; comment
  target dispatch.
- `Dtos`: the GetOtp, CreateCourse, CreateEpisode and CreateProduct
  validators.

Foreign pieces are parameters:
- the clock (`now`), the OTP code and the ban list;
- bcrypt's compare, JWT verify and `mongoose.isValidObjectId`;
- the text-search match, and the verdicts of the request forms this
  model does not define (`valid`): the check-otp, register, login,
  comment, off and category forms. The GetOtp and CreateCourse forms are
  defined in `Dtos`, and their handlers read the body through them.

A filter value that is `undefined` is sent as `null`, so it matches the
documents that lack the field. The model follows this wherever a filter
can hold one: the authentication lookup, the coupon lookup, and `_id`
filters, which then match nothing.

Object ids are natural numbers that grow with creation time. So
`sort({_id: -1})` is the reverse of insertion order. A path parameter that
is an id or a title is a `Key` (`ById` or `ByTitle`).

## Model

| member | source | states |
|---|---|---|
| Basket.FindItem | src/http/services/basket/basket.service.ts:11-34 | The line item found has the requested id and is in the list; nothing is found iff no line has that id |
| Basket.FindItemFirst | src/http/services/basket/basket.service.ts:12-21 | The positional projection returns the first line with the id |
| Basket.CheckExistProduct | src/http/services/basket/basket.service.ts:36-40 | NotFound (None) iff no catalog product has the id; otherwise that product |
| Basket.CheckExistCourse | src/http/services/basket/basket.service.ts:42-46 | NotFound (None) iff no catalog course has the id; otherwise that course |
| Basket.IncFirst | src/http/controllers/basket/basket.controller.ts:26-36 | `$inc` on the positional match: the first line with the id changes its count by delta, ids keep their places, every other id's line is unchanged |
| Basket.PullId | src/http/controllers/basket/basket.controller.ts:89-98 | `$pull`: exactly the lines with other ids remain, and lookups of other ids are unaffected |
| Basket.AddRaisesQuantity | src/http/controllers/basket/basket.controller.ts:25-50 | Adding raises that product's quantity by exactly 1 and leaves every other quantity unchanged, whether it increments or appends |
| Basket.AddKeepsValid | src/http/controllers/basket/basket.controller.ts:25-50 | Adding keeps one line per id, each with count at least 1 |
| Basket.RemoveLowersQuantity | src/http/controllers/basket/basket.controller.ts:75-99 | Removing lowers that product's quantity by exactly 1: a count above 1 is decremented, a count of 1 deletes the line; other quantities unchanged |
| Basket.RemoveKeepsValid | src/http/controllers/basket/basket.controller.ts:75-99 | Removing keeps one line per id with positive counts |
| Basket.PullIdUnique | src/http/controllers/basket/basket.controller.ts:196-201 | Pulling an id keeps the lines unique |
| Basket.IncFirstInverse | src/http/controllers/basket/basket.controller.ts:32-34 | An increment followed by the opposite increment restores the lines |
| Basket.RemoveAfterAdd | src/http/controllers/basket/basket.controller.ts:25-99 | Adding a product and then removing it gives back exactly the lines there were, in order |
| Basket.Basket.AddProduct | src/http/controllers/basket/basket.controller.ts:18-61 | NotFound and nothing changed for an id missing from the catalog; otherwise Ok and the product lines become AddedItem; courses untouched; invariant kept |
| Basket.Basket.RemoveProduct | src/http/controllers/basket/basket.controller.ts:65-110 | NotFound for an unknown product; 500 with the basket untouched when the product has no line; otherwise Ok and RemovedItem |
| Basket.Basket.RemoveAllProducts | src/http/controllers/basket/basket.controller.ts:114-136 | The product lines are emptied and the course lines stay |
| Basket.Basket.AddCourse | src/http/controllers/basket/basket.controller.ts:140-175 | NotFound for an unknown course; BadRequest and no change when already in the basket; otherwise `{courseID, count: 1}` appended |
| Basket.Basket.RemoveCourse | src/http/controllers/basket/basket.controller.ts:179-213 | NotFound for an unknown course or one not in the basket; otherwise its line is pulled and it is no longer found |
| Reactions.Like | src/http/controllers/product/product.controller.ts:534-549 | Like toggles the user's like; when adding, the user leaves dislikes; when withdrawing, dislikes stay; bookmarks and other users unchanged |
| Reactions.Dislike | src/http/controllers/product/product.controller.ts:576-591 | The mirror of Like, with the two arrays exchanged |
| Reactions.Bookmark | src/http/controllers/product/product.controller.ts:610-617 | Bookmark toggles the user's membership in bookmarks only |
| Reactions.TogglesKeepExclusive | src/http/controllers/product/product.controller.ts:534-591 | Every toggle keeps likes and dislikes disjoint |
| Reactions.LikeTwice | src/http/controllers/blog/blog.controller.ts:516-529 | Liking twice, from a user with no reaction, restores the arrays |
| Reactions.DislikeTwice | src/http/controllers/blog/blog.controller.ts:556-569 | Disliking twice, from a user with no reaction, restores the arrays |
| Reactions.BookmarkTwice | src/http/controllers/blog/blog.controller.ts:479-488 | Bookmarking twice restores the array |
| Reactions.LikeThenDislike | src/http/controllers/course/course.controller.ts:437-491 | Liking then disliking leaves the user disliking only |
| Reactions.ApplyTwice | src/http/controllers/course/course.controller.ts:404-407 | Any toggle applied twice by a user with no reaction restores the arrays |
| Scores.AverageScore | src/http/controllers/product/product.controller.ts:142-167 | floor((5 + sum of the visible matching scores) / (count + 1)) |
| Scores.ComputeAverageScore | src/http/controllers/product/product.controller.ts:442-454 | The filter-and-sum loop computes AverageScore: floor of (5 + sum of visible matching scores) over (matches + 1) |
| Scores.ComputeAverageScores | src/http/controllers/product/product.controller.ts:141-169 | One average per listed entity, in list order |
| Scores.NoCommentsScoresFive | src/http/controllers/product/product.controller.ts:142-167 | An entity without visible comments scores 5 |
| Scores.AverageWithinScoreRange | src/http/controllers/product/product.controller.ts:160-167 | When every counted score lies in a range holding 5, so does the average |
| Scores.IrrelevantCommentKeepsAverage | src/http/controllers/product/product.controller.ts:144-150 | A hidden comment, or one about another entity, does not move the average |
| Scores.SumAppendScores | src/http/controllers/course/course.controller.ts:162-180 | One more comment adds its score to the sum exactly when it counts |
| Products.FindProduct | src/http/services/product/product.service.ts:14-18 | The first product the id-or-title filter matches; None iff none matches |
| Products.Toggled | src/http/controllers/product/product.controller.ts:520-630 | The toggle changes only the matched product's reaction arrays; an unknown id changes nothing |
| Products.ToggledKeepsExclusive | src/http/controllers/product/product.controller.ts:534-591 | Toggling keeps every product's likes and dislikes disjoint |
| Products.ToggledTwice | src/http/controllers/product/product.controller.ts:534-536 | The same toggle twice by a user with no reaction restores every product |
| Products.PullTitle | src/http/controllers/product/product.controller.ts:383-392 | Exactly the features with other titles remain |
| Products.RemoveAfterAddFeature | src/http/controllers/product/product.controller.ts:331-392 | Adding a feature under a new title and then removing that title restores the list |
| Products.ProductTable.React | src/http/controllers/product/product.controller.ts:520-630 | Always Ok, since the lookup result is discarded; the table becomes Toggled |
| Products.ProductTable.AddFeature | src/http/controllers/product/product.controller.ts:326-356 | The feature is appended to the product found; an unmatched product answers 500 and nothing changes |
| Products.ProductTable.RemoveFeature | src/http/controllers/product/product.controller.ts:360-403 | NotFound for an unknown product or a title it lacks; otherwise Ok and every feature with that title removed |
| Products.ProductTable.List | src/http/controllers/product/product.controller.ts:140-169 | One average score per product, in table order |
| Products.ProductTable.GetOne | src/http/controllers/product/product.controller.ts:432-480 | NotFound for an unknown key; otherwise the found product's average score |
| Blogs.FindBlog | src/http/services/blog/blog.service.ts:7-12 | The first blog the id-or-title key matches; None, the thrown NotFound, iff none matches |
| Blogs.NewestFirstSorted | src/http/controllers/blog/blog.controller.ts:118 | In a creation-ordered table the reversed ids are strictly decreasing and list every blog |
| Blogs.Without | src/http/controllers/blog/blog.controller.ts:414 | Removal keeps creation order and removes the blog for good |
| Blogs.ToggledKeepsExclusive | src/http/controllers/blog/blog.controller.ts:503-581 | Toggling keeps every blog's likes and dislikes disjoint |
| Blogs.BlogTable.React | src/http/controllers/blog/blog.controller.ts:474-581 | NotFound and no change for an unknown blog; otherwise only that blog's arrays toggle |
| Blogs.BlogTable.Remove | src/http/controllers/blog/blog.controller.ts:410-436 | NotFound and no change for an unknown key; otherwise the found blog is deleted |
| Blogs.BlogTable.List | src/http/controllers/blog/blog.controller.ts:68-168 | Ids newest first, strictly decreasing, each with its average score |
| Blogs.BlogTable.GetOne | src/http/controllers/blog/blog.controller.ts:170-256 | NotFound for an unknown key; otherwise the found blog's average score |
| Blogs.BlogTable.Search | src/http/controllers/blog/blog.controller.ts:258-330 | With a non-empty query: NotFound iff no blog matches, otherwise a matching blog; without one: Ok |
| Courses.FindCourse | src/http/controllers/course/course.controller.ts:320-329 | The first course the key matches; None iff none matches |
| Courses.RegistersOf | src/http/controllers/course/course.controller.ts:156-186 | The number of registration records naming the course; 0 iff none does |
| Courses.RegistersAfterCreate | src/http/controllers/course/course.controller.ts:377-381 | A new record adds one to its own course's count and nothing to others |
| Courses.RegistersCountUsers | src/http/controllers/course/course.controller.ts:365-381 | While a user holds at most one registration per course, `registers` is the number of distinct registered users |
| Courses.WithoutKeepsOrder | src/http/controllers/course/course.controller.ts:317-350 | Removal keeps creation order and removes the course for good |
| Courses.Listed | src/http/controllers/course/course.controller.ts:97-143 | The courses the optional search keeps, in creation order |
| Courses.Keep | src/http/controllers/course/course.controller.ts:97-135 | Exactly the courses the text match keeps, in order |
| Courses.CountRegisters | src/http/controllers/course/course.controller.ts:154-160 | One registration count per listed course, in list order |
| Courses.Storable | src/http/models/course/course.model.ts:42-56 | What `create` accepts: text and short_text are required Strings, price and discount cast to numbers |
| Courses.CourseStore.AddCourse | src/http/controllers/course/course.controller.ts:27-91 | BadRequest iff CreateCourseValid refuses the body or the course is free with a positive price; then 500 and nothing stored when the schema refuses it (an empty or non-string text or short_text, a price or discount that does not cast); otherwise one course appended with the body's title (3 to 30 long) and type (a valid course type), the cast price and discount, status "notStarted", the requester as teacher |
| Courses.CourseStore.RemoveCourse | src/http/controllers/course/course.controller.ts:317-350 | NotFound and no change for an unknown key; otherwise the course is removed; registrations kept |
| Courses.CourseStore.Register | src/http/controllers/course/course.controller.ts:352-391 | Students overwritten first; Conflict with no new record for a registered user; otherwise a record at the course's current price |
| Courses.CourseStore.React | src/http/controllers/course/course.controller.ts:395-503 | NotFound for an unknown course; otherwise only that course's arrays toggle |
| Courses.CourseStore.List | src/http/controllers/course/course.controller.ts:93-201 | Newest first, each with its average score and registration count |
| Coupons.FindCoupon | src/http/controllers/off/off.controller.ts:119 | The first coupon with that code and target; None iff there is none |
| Coupons.OmittedProductFindsCourseCoupon | src/http/controllers/off/off.controller.ts:118-119 | A product redemption without a product id finds the first coupon with that code and no product, such as a course coupon |
| Coupons.Redeemed | src/http/controllers/off/off.controller.ts:126-133 | A redemption is refused iff uses equals max; otherwise uses goes up by exactly 1 |
| Coupons.RedeemedWithinMax | src/http/controllers/off/off.controller.ts:126-133 | A redemption keeps uses within a non-negative max |
| Coupons.RedeemTimesUses | src/http/controllers/off/off.controller.ts:126-133 | A new coupon with max at least 0 can be redeemed exactly max times; a negative max never saturates |
| Coupons.ProductDiscounted | src/http/controllers/off/off.controller.ts:40 | The named product takes the coupon's percent as discount; every other product is unchanged |
| Coupons.CourseDiscounted | src/http/controllers/off/off.controller.ts:69 | The named course takes the coupon's percent as discount; every other course is unchanged |
| Coupons.CouponTable.CreateForProduct | src/http/services/off/off.service.ts:9-22 | BadRequest and nothing stored for an invalid request; 500 and nothing stored for an empty code or a missing max; otherwise a coupon with uses 0, the requester as creator and no course, and the product's discount set |
| Coupons.CouponTable.CreateForCourse | src/http/services/off/off.service.ts:24-37 | The same for a course coupon, with no product: BadRequest, then 500 for an empty code or missing max, otherwise stored and the course's discount set |
| Coupons.CouponTable.GetAll | src/http/controllers/off/off.controller.ts:84-106 | NotFound while there are no coupons; otherwise the whole list |
| Coupons.CouponTable.Redeem | src/http/controllers/off/off.controller.ts:110-207 | BadRequest when the form refuses the body; NotFound for an unknown pair (an omitted id matching coupons without that field); Conflict when used up; otherwise that coupon's uses go up by one |
| Coupons.CouponTable.Remove | src/http/controllers/off/off.controller.ts:211-235 | NotFound for an invalid or unknown id; otherwise exactly the coupons with other ids remain |
| Coupons.RemoveAtMembers | src/http/controllers/off/off.controller.ts:215-217 | Dropping the row at one index keeps ids unique and leaves exactly the rows with other ids |
| Auth.FindMobile | src/http/services/auth/auth.service.ts:11-12 | The first user with that mobile; None iff none has it |
| Auth.RoleFor | src/http/controllers/auth/auth.controller.ts:140 | ADMIN for the first three accounts (count 0 to 2), USER after |
| Auth.OtpVerdict | src/http/services/auth/auth.service.ts:9-21 | NotFound iff no user; Unauthorized iff the code differs under the loose `!=` (a missing code equals a missing stored code) or has expired; Ok otherwise |
| Auth.IssuedCodeLifetime | src/http/controllers/auth/auth.controller.ts:121-126 | A code issued at t is accepted iff now is at most t + 20000; it blocks reissue iff now is below t + 20000; at the expiry instant both hold |
| Auth.RegisteredAccountNeverPassesOtp | src/http/services/auth/auth.service.ts:14 | An account without a code refuses every numeric code |
| Auth.MissingCodePassesCodelessAccount | src/http/services/auth/auth.service.ts:14-16 | A body without a code passes for exactly the unexpired accounts without a code, such as one made by register, and gets a token |
| Auth.AdminCountFrom | src/http/controllers/auth/auth.controller.ts:124-141 | Counting admins from any starting position under the role rule |
| Auth.FirstThreeAdmins | src/http/controllers/auth/auth.controller.ts:124-141 | Under the role rule, exactly the first three accounts are ADMIN |
| Auth.AppendKeepsRoles | src/http/services/auth/auth.service.ts:32-45 | Appending an account with the role for the current count keeps the role rule |
| Auth.UserTable.UpdateUser | src/http/controllers/auth/auth.controller.ts:149-153 | The first user with the mobile gets the new code and expiry; modified iff such a user exists |
| Auth.UserTable.GetOtp | src/http/controllers/auth/auth.controller.ts:15-52 | BadRequest iff GetOtpValid refuses the body; then Forbidden for a banned mobile; then Forbidden while the code is live; otherwise the code is replaced, or a new user is created with the role for the current count |
| Auth.UserTable.CheckOtp | src/http/services/auth/auth.service.ts:9-21 | The answer is OtpVerdict on the sent code or its absence; on Ok the fresh token is stored on the user |
| Auth.UserTable.Register | src/http/services/auth/auth.service.ts:22-54 | Conflict on a clash of username, email or mobile; otherwise the account is stored without its token, and a banned mobile gets Forbidden after creation |
| Auth.UserTable.Login | src/http/services/auth/auth.service.ts:55-70 | Unauthorized for an unknown username or a failed compare; otherwise the token is stored |
| StringToArray.Convert | src/http/middlewares/stringToArray.ts:7-23 | Falsy becomes []; a string is split and trimmed; arrays are trimmed and de-duplicated; other values are unchanged |
| StringToArray.ConvertString | src/http/middlewares/stringToArray.ts:9-20 | A string becomes the de-duplicated trimmed pieces |
| StringToArray.ConvertStringItems | src/http/middlewares/stringToArray.ts:17-20 | Each item of the result is trimmed and comes from a piece, with no duplicates |
| StringToArray.ConvertIdempotent | src/http/middlewares/stringToArray.ts:7-23 | Converting twice is converting once |
| StringToArray.ConvertArraySnoc | src/http/middlewares/stringToArray.ts:17-20 | An array field keeps the first occurrence of each trimmed item, in order |
| StringToArray.FalsyBecomesEmpty | src/http/middlewares/stringToArray.ts:21-23 | A missing or falsy field becomes [] |
| StringToArray.HashBeatsComma | src/http/middlewares/stringToArray.ts:9-12 | A string holding one '#' is cut there only, whatever commas it holds; the two pieces are trimmed and deduplicated |
| StringToArray.StringToArray | src/http/middlewares/stringToArray.ts:1-29 | Each named field becomes Convert of its old value, other fields and keys are kept, next is called once |
| AuthMiddleware.GetToken | src/http/middlewares/authMiddleware.ts:15-19 | `getToken`: the second space-separated piece when it is non-empty and the first is "Bearer" or "bearer" |
| AuthMiddleware.TokenOf | src/http/middlewares/authMiddleware.ts:15-19 | "Bearer t", optionally followed by more space-separated pieces, yields t |
| AuthMiddleware.TokenShape | src/http/middlewares/authMiddleware.ts:15-19 | Any header that yields a token has that shape |
| AuthMiddleware.ExtraPiecesIgnored | src/http/middlewares/authMiddleware.ts:16 | "Bearer a b" yields "a" |
| AuthMiddleware.DoubleSpaceRefused | src/http/middlewares/authMiddleware.ts:16-17 | "Bearer  x" yields no token |
| AuthMiddleware.OtherSchemesRefused | src/http/middlewares/authMiddleware.ts:16-18 | A first word other than "Bearer" or "bearer" yields no token, whatever follows |
| AuthMiddleware.OneWordRefused | src/http/middlewares/authMiddleware.ts:16-18 | A header of one word (such as "Bearer" alone) and a missing header yield no token |
| AuthMiddleware.Authenticate | src/http/middlewares/authMiddleware.ts:21-50 | Ok iff a token verifies and an account Resolves its payload; then the first such account is attached and next runs once; otherwise Unauthorized and the request is unchanged |
| AuthMiddleware.Resolves | src/http/middlewares/authMiddleware.ts:32-37 | The `$or` filter: same mobile, or same username where an absent username matches accounts without one |
| AuthMiddleware.MobileOnlyTokenResolvesEarlierAccount | src/http/middlewares/authMiddleware.ts:32-37 | A token without a username resolves to the first account with its mobile or without a username, which can be an older account |
| PermissionGuard.Flat | src/http/middlewares/permission.guard.ts:11 | `flat(depth)`: depth 0 changes nothing and every top-level name is kept |
| PermissionGuard.FlatMembers | src/http/middlewares/permission.guard.ts:11 | A name is kept iff it is nested at most depth arrays down; an array is kept iff it is nested exactly depth down |
| PermissionGuard.FlatAppend | src/http/middlewares/permission.guard.ts:11 | Flattening distributes over concatenation |
| PermissionGuard.FindRole | src/http/middlewares/permission.guard.ts:13 | The role with the user's title; None iff none |
| PermissionGuard.NamesOf | src/http/middlewares/permission.guard.ts:14-17 | Exactly the names of the permissions whose ids the role lists |
| PermissionGuard.CheckPermission | src/http/middlewares/permission.guard.ts:18-24 | Ok iff allowed, Forbidden otherwise |
| PermissionGuard.Allowed | src/http/middlewares/permission.guard.ts:11-24 | Access rule: the flattened list is empty or every element is a held name |
| PermissionGuard.AllowedNested | src/http/middlewares/permission.guard.ts:11-24 | Allowed iff no array sits three levels down and every name at most two arrays deep is held |
| PermissionGuard.AllowedIff | src/http/middlewares/permission.guard.ts:18-23 | Allowed iff the flattened list is empty or every required name is held |
| PermissionGuard.MoreNamesStillAllowed | src/http/middlewares/permission.guard.ts:18-20 | More held names never turn allow into deny |
| PermissionGuard.MoreIdsMoreNames | src/http/middlewares/permission.guard.ts:14-17 | More permission ids on a role give more names |
| PermissionGuard.SameElementsSameVerdict | src/http/middlewares/permission.guard.ts:18-20 | Order and duplication of required names do not matter |
| PermissionGuard.AllGrantsNothing | src/http/middlewares/permission.guard.ts:22 | Holding "ALL" grants nothing extra |
| PermissionGuard.FlattenTwoLevels | src/http/middlewares/permission.guard.ts:11 | Two levels of nesting are flattened, a third is not, and such a requirement is never met |
| Categories.FindCategory | src/http/controllers/category/category.controller.ts:76-82 | The first category the key matches; None iff none |
| Categories.Remaining | src/http/controllers/category/category.controller.ts:80-82 | Exactly the categories that are neither the node nor its direct children remain |
| Categories.Children | src/http/controllers/category/category.controller.ts:167-178 | Exactly the categories whose parent is the id, in order |
| Categories.FoundIsDeleted | src/http/controllers/category/category.controller.ts:80-82 | The found category is among those deleted |
| Categories.RemainingUnique | src/http/controllers/category/category.controller.ts:80-82 | Deleting keeps ids unique |
| Categories.CategoryTable.Create | src/http/controllers/category/category.controller.ts:17-53 | BadRequest and nothing stored for a taken title; otherwise the category is appended |
| Categories.CategoryTable.Remove | src/http/controllers/category/category.controller.ts:71-108 | NotFound and no change for an unknown key; otherwise Ok and Remaining |
| Categories.CategoryTable.Update | src/http/controllers/category/category.controller.ts:110-156 | NotFound for an unknown key; 500 when the title is taken or nothing changes; otherwise exactly title and images set |
| Categories.CategoryTable.GetOne | src/http/controllers/category/category.controller.ts:158-205 | NotFound for an unknown key; otherwise the category and its Children |
| Comments.IdByTitle | src/http/services/comment/comment.service.ts:26-30 | The id of the first entity with that title; None iff no entity has it |
| Comments.NewComment | src/http/services/comment/comment.service.ts:16-56 | None iff no name is given; otherwise the first given of blog, course, product is resolved by title, and text, score and user are copied with show 0 |
| Comments.AtMostOneTarget | src/http/services/comment/comment.service.ts:25-54 | A new comment names at most one target |
| Comments.NewCommentKeepsAverages | src/http/services/comment/comment.service.ts:28-33 | A new comment, hidden by default, moves no average |
| Comments.CallersTargetBlogs | src/http/controllers/comment/comment.controller.ts:68-109 | A name passed in the blog position is resolved against blog titles only |
| Comments.CommentTable.Add | src/http/services/comment/comment.service.ts:16-56 | BadRequest for an invalid body; 500 and nothing stored when no name is given, the text is empty or the score is missing; otherwise the comment is appended, resolved against blog titles |
| Uploads.LastIndexOf | src/utils/multer.ts:55 | The last occurrence of the character; None iff absent |
| Uploads.BaseName | src/utils/multer.ts:55 | The base name holds no slash |
| Uploads.ExtName | src/utils/multer.ts:55 | `path.extname`: from the last dot of the base name, empty when the dot is absent or leads the name |
| Uploads.FileFilter | src/utils/multer.ts:53-69 | Ok iff the extension is one of the ten listed; BadRequest otherwise |
| Uploads.ExtOfStem | src/utils/multer.ts:55 | The extension of stem + ".ext" is ".ext" |
| Uploads.FilterByExtension | src/utils/multer.ts:54-67 | A name is accepted iff its extension is listed |
| Uploads.UpperCaseRefused | src/utils/multer.ts:67 | A name whose extension starts with an upper-case letter, such as ".JPG", is refused |
| Uploads.SharedFilterExamples | src/utils/multer.ts:80-85 | ".mp4" and ".png" both pass the one shared filter |
| Uploads.NoExtensionRefused | src/utils/multer.ts:54-67 | A name without a dot is refused |
| Uploads.HiddenFileRefused | src/utils/multer.ts:54-67 | A dot file such as ".png" has no extension and is refused |
| Uploads.UploadPath | src/utils/multer.ts:13-27 | The upload directory for a date |
| Uploads.UploadPathComponents | src/utils/multer.ts:13-27 | The path is uploads/blogs/year/month/day with a 0-based month |
| Uploads.Destination | src/utils/multer.ts:11-30 | The upload path is stored in the body; nothing else changes |
| Uploads.FileName | src/utils/multer.ts:44-50 | The stored name is the original name, also written to the body |
| Dtos.GetOtpValid | src/http/dtos/auth/auth.dto.ts:4-11 | `GetOtpDto`: mobile defined, matching ^09\d{9}$, of length 11, not empty |
| Dtos.CreateCourseValid | src/http/dtos/course/course.dto.ts:5-38 | `CreateCourseDto`: the defined fields, the title window, the object-id category, the type pattern and the image file name |
| Dtos.CreateEpisodeValid | src/http/dtos/course/course.dto.ts:40-66 | `CreateEpisodeDto`: title window, type pattern, object-id chapter and course, video file name |
| Dtos.CreateProductValid | src/http/dtos/product/product.dto.ts:5-52 | `CreateProductDto`: title and short title windows, object-id category, defined price, discount and count, image file name |
| Dtos.GetOtpValidIff | src/http/dtos/auth/auth.dto.ts:4-11 | mobile is valid iff it is a string "09" followed by nine digits |
| Dtos.GetOtpReadsMobileOnly | src/http/dtos/auth/auth.dto.ts:6 | Only mobile decides validity |
| Dtos.ContainsWitness | src/http/dtos/course/course.dto.ts:31 | An unanchored match has an offset |
| Dtos.EpisodeTypeIsLock | src/http/dtos/course/course.dto.ts:50 | An episode type is valid iff it contains "lock" ignoring case |
| Dtos.LowerAppend | src/http/dtos/course/course.dto.ts:31-50 | Case folding distributes over concatenation |
| Dtos.CourseTypeUnanchored | src/http/dtos/course/course.dto.ts:31 | Any string containing free, cash or special in any case is a valid course type |
| Dtos.AviUploadedButRefused | src/http/dtos/course/course.dto.ts:62 | An .avi file passes the upload filter but not the episode validator |
| Dtos.UpperCaseImageRefused | src/http/dtos/course/course.dto.ts:34 | ".PNG" is not a valid image name |
| Dtos.PriceUnchecked | src/http/dtos/course/course.dto.ts:23-28 | Any defined price validates the same |
| Dtos.CourseDiscountRequired | src/http/dtos/course/course.dto.ts:26-28 | A valid course body always holds a discount, so the handler's default of 0 never applies |
| Dtos.CourseTitleWindow | src/http/dtos/course/course.dto.ts:8-43 | A valid course or episode title has length 3 to 30 |
| Common.Pull | src/http/controllers/product/product.controller.ts:535 | `$pull`: exactly the other elements remain |
| Common.PullAfterPush | src/http/controllers/product/product.controller.ts:535-536 | `$push` then `$pull` of a new element restores the array |
| Common.Dedupe | src/http/middlewares/stringToArray.ts:19 | The same elements, without duplicates |
| Common.DedupeSnoc | src/http/middlewares/stringToArray.ts:19 | Set insertion order: a repeated element changes nothing, a new one goes last, so first occurrences keep their order |
| Common.DedupeIdempotent | src/http/middlewares/stringToArray.ts:19 | De-duplicating twice is de-duplicating once |
| Common.ReverseDecreasing | src/http/controllers/course/course.controller.ts:135-143 | Reversed increasing ids are strictly decreasing |
| Strings.JoinSplit | src/http/middlewares/authMiddleware.ts:16 | Joining the pieces of a split restores the string |
| Strings.SplitJoin | src/http/middlewares/stringToArray.ts:10-12 | Splitting the join of pieces free of the separator restores them |
| Strings.TrimIdempotent | src/http/middlewares/stringToArray.ts:18 | Trimming twice is trimming once |

## Left out

- HTTP and Express plumbing: response bodies, messages and decorators. Handlers answer with an `Outcome` only.
- MongoDB machinery: populate, lean, `$text` search (a `textMatch` parameter), positional projections.
- Randomness, the clock, bcrypt, JWT and `mongoose.isValidObjectId` are parameters. Disk I/O and `mkdirSync` in the upload route are left out.
- Scores are integers. `Number(score)` of a non-numeric or fractional score is not modelled.
- Basket pricing (`getBasketOfUser`) is not part of this model; its source is absent.
- setOnAll is not modelled: its `updateMany` call passes the discount as a filter, and its effect depends on library semantics.
- Products.ProductTable.React: an unknown id answers Ok and changes nothing, as in the source. Blog and course toggles answer NotFound. For courses this relies on `findCourseWithTitleOrID`, which is not part of this model.
- Blog toggles by title are not modelled. The source passes a title to an `_id` filter, which fails with a cast error.
- removeBlog's 500 branch for a zero deleted count cannot be reached after a successful lookup, so the model has no such branch.
- Product creation, search, update and removal; course detail and update; blog creation and update: thin queries with no rule beyond the query.
- Coupons.CouponTable.CreateForProduct: the percentage is an integer here; the source's DTO holds it as a string. An empty percentage string, which the schema's `required` check refuses with 500, cannot be expressed. The same holds for CreateForCourse.
- A coupon naming an absent product or course changes no discount, which matches `findOneAndUpdate` finding nothing.
- Categories.CategoryTable.Create: a duplicate title answers BadRequest. The unique index then rejects the follow-up create, so nothing is stored; the second send's error is not modelled.
- Category create and update with `files` that is not an array send no response. That path is not modelled. getAllCategories is a bare query.
- Auth.UserTable.GetOtp: the 401 branch after saveUser cannot be reached. A Forbidden from saveUser is a truthy response object, so the handler's later send fails; the client still sees Forbidden.
- Auth.UserTable.Register, Auth.UserTable.Login and AuthMiddleware.Resolves: the schema lowercases username and email, and Mongoose applies that setter to query values too. This is not modelled, so usernames and emails are compared as given.
- Categories.CategoryTable.Update: `title` is read from the raw body, so it can be missing. Then Mongoose drops it from `$set` and only the images change. The model always receives a title.
- PermissionGuard.CheckPermission: a user whose role is not found holds no permissions.
- StringToArray.Convert: arrays holding non-strings, on which `trim` throws, are left out.
- Dtos.GetOtpValidIff: lengths count characters, and variation selectors are not treated specially. Case-insensitive matching folds ASCII letters only, which is exact for the ASCII patterns used.
- Uploads.BaseName: only the POSIX variant of `path.extname` is modelled.
- Uploads.FileName: with an empty original name the source never calls the callback, so the upload stalls. The model returns `None` and leaves the body unchanged.
- The forms of blogs, categories, offs and comments are not part of this model, so their verdict is the `valid` parameter.
- `CheckOtpDto`, `RegisterDto` and `LoginDto` are imported by the auth controller and service but defined nowhere in the source, so their verdict is the `valid` parameter as well.
- Products.ProductTable.React, Courses.CourseStore.Register, Courses.CourseStore.React and the basket handlers of `Basket.Basket`: ids are natural numbers here, so a path id that is not an object id cannot be expressed. In the source, such an id makes the `_id` filter throw a CastError, which is answered with 500. Coupons.CouponTable.Remove is the one handler that checks the id itself, and it models that check.
- Courses.CourseStore.AddCourse: `price` and `discount` are Mongoose's casts of the body's values, given as parameters, and the free-course test uses the cast price. An empty discount string, which Mongoose stores as null and the source accepts, has no value in the model. A `files` value that is not an array sends no response; that path is not modelled.
- The chapter, episode, contact, info, user, user-profile and RBAC controllers are thin CRUD and are not modelled.
