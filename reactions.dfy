/** The like / dislike / bookmark toggles that the product, blog and course
    controllers each spell out with `$push` and `$pull` on three arrays of
    user ids. The three controllers run the same rules; they are stated
    once here. */
module Reactions {
  import opened Common

  datatype Reactions = Reactions(likes: seq<Id>, dislikes: seq<Id>, bookmarks: seq<Id>)

  /** The defaults of a new document: three empty arrays. */
  const NoReactions := Reactions([], [], [])

  /** No user both likes and dislikes the entity. */
  ghost predicate Exclusive(r: Reactions) {
    forall v :: !(v in r.likes && v in r.dislikes)
  }

  /** Liking: when the user already likes, the like is withdrawn; otherwise
      the user is pushed to likes and, when present, pulled from dislikes.
      Bookmarks and every other user are untouched. */
  function Like(r: Reactions, u: Id): (r': Reactions)
    ensures (u in r'.likes) == (u !in r.likes)
    ensures u !in r.likes ==> u !in r'.dislikes
    ensures u in r.likes ==> r'.dislikes == r.dislikes
    ensures !(u in r'.likes && u in r'.dislikes)
    ensures r'.bookmarks == r.bookmarks
    ensures forall v :: v != u ==> (v in r'.likes <==> v in r.likes)
    ensures forall v :: v != u ==> (v in r'.dislikes <==> v in r.dislikes)
  {
    var liked := u in r.likes;
    var disliked := u in r.dislikes;
    var likes := if liked then Pull(r.likes, u) else r.likes + [u];
    var dislikes := if !liked && disliked then Pull(r.dislikes, u) else r.dislikes;
    r.(likes := likes, dislikes := dislikes)
  }

  /** Disliking mirrors liking with the two arrays exchanged. */
  function Dislike(r: Reactions, u: Id): (r': Reactions)
    ensures (u in r'.dislikes) == (u !in r.dislikes)
    ensures u !in r.dislikes ==> u !in r'.likes
    ensures u in r.dislikes ==> r'.likes == r.likes
    ensures !(u in r'.likes && u in r'.dislikes)
    ensures r'.bookmarks == r.bookmarks
    ensures forall v :: v != u ==> (v in r'.likes <==> v in r.likes)
    ensures forall v :: v != u ==> (v in r'.dislikes <==> v in r.dislikes)
  {
    var disliked := u in r.dislikes;
    var liked := u in r.likes;
    var dislikes := if disliked then Pull(r.dislikes, u) else r.dislikes + [u];
    var likes := if !disliked && liked then Pull(r.likes, u) else r.likes;
    r.(likes := likes, dislikes := dislikes)
  }

  /** Bookmarking toggles the user's membership in bookmarks only. */
  function Bookmark(r: Reactions, u: Id): (r': Reactions)
    ensures (u in r'.bookmarks) == (u !in r.bookmarks)
    ensures r'.likes == r.likes && r'.dislikes == r.dislikes
    ensures forall v :: v != u ==> (v in r'.bookmarks <==> v in r.bookmarks)
  {
    var bookmarks := if u in r.bookmarks then Pull(r.bookmarks, u) else r.bookmarks + [u];
    r.(bookmarks := bookmarks)
  }

  /** Every toggle keeps likes and dislikes mutually exclusive. */
  lemma TogglesKeepExclusive(r: Reactions, u: Id)
    requires Exclusive(r)
    ensures Exclusive(Like(r, u)) && Exclusive(Dislike(r, u)) && Exclusive(Bookmark(r, u))
  {
    var a, b := Like(r, u), Dislike(r, u);
    forall v ensures !(v in a.likes && v in a.dislikes) && !(v in b.likes && v in b.dislikes) {
      if v != u {
        assert !(v in r.likes && v in r.dislikes);
      }
    }
  }

  /** Liking twice, from a user with no reaction, restores the arrays
      exactly (order included). */
  lemma LikeTwice(r: Reactions, u: Id)
    requires u !in r.likes && u !in r.dislikes
    ensures Like(Like(r, u), u) == r
  {
    PullAfterPush(r.likes, u);
  }

  /** Disliking twice, from a user with no reaction, restores the arrays. */
  lemma DislikeTwice(r: Reactions, u: Id)
    requires u !in r.likes && u !in r.dislikes
    ensures Dislike(Dislike(r, u), u) == r
  {
    PullAfterPush(r.dislikes, u);
  }

  /** Bookmarking twice, from a user who had no bookmark, restores the array. */
  lemma BookmarkTwice(r: Reactions, u: Id)
    requires u !in r.bookmarks
    ensures Bookmark(Bookmark(r, u), u) == r
  {
    PullAfterPush(r.bookmarks, u);
  }

  /** Liking then disliking leaves the user disliking only. */
  lemma LikeThenDislike(r: Reactions, u: Id)
    requires u !in r.likes
    ensures var r' := Dislike(Like(r, u), u); u in r'.dislikes && u !in r'.likes
  {
  }

  /** Which of the three toggle handlers runs. */
  datatype Toggle = LikeIt | DislikeIt | BookmarkIt

  function Apply(r: Reactions, u: Id, t: Toggle): Reactions {
    match t
    case LikeIt => Like(r, u)
    case DislikeIt => Dislike(r, u)
    case BookmarkIt => Bookmark(r, u)
  }

  /** Running the same toggle twice, for a user with no reaction of that
      kind, restores the arrays. */
  lemma ApplyTwice(r: Reactions, u: Id, t: Toggle)
    requires u !in r.likes && u !in r.dislikes && u !in r.bookmarks
    ensures Apply(Apply(r, u, t), u, t) == r
  {
    match t
    case LikeIt => LikeTwice(r, u);
    case DislikeIt => DislikeTwice(r, u);
    case BookmarkIt => BookmarkTwice(r, u);
  }
}
