/** A post card's like and comment counters.  `post.likes` and
    `post.comments` are the starting values given to the constructor. */
module PostCard {
  import opened Common

  /** The counters and toggles a card keeps. */
  datatype CardState = CardState(likes: int, isLiked: bool, comments: int, newComment: string)

  /** The like count always equals the post's count plus one while liked. */
  predicate LikesConsistent(s: CardState, postLikes: int) {
    s.likes == postLikes + (if s.isLiked then 1 else 0)
  }

  /** `handleLike`: take the like back when liked, add one otherwise. */
  function Like(s: CardState): (r: CardState)
    ensures r.isLiked == !s.isLiked
    ensures r.likes == (if s.isLiked then s.likes - 1 else s.likes + 1)
    ensures r.comments == s.comments && r.newComment == s.newComment
  {
    s.(likes := if s.isLiked then s.likes - 1 else s.likes + 1, isLiked := !s.isLiked)
  }

  /** `handleAddComment`: a comment that is not blank is counted and the
      input cleared; a blank one changes nothing. */
  function AddComment(s: CardState): (r: CardState)
    ensures r.comments >= s.comments
    ensures r.comments == s.comments + 1 <==> !AllSpace(s.newComment)
    ensures !AllSpace(s.newComment) ==> r.newComment == ""
    ensures AllSpace(s.newComment) ==> r == s
    ensures r.likes == s.likes && r.isLiked == s.isLiked
  {
    TrimEmptyIffAllSpace(s.newComment);
    if Trim(s.newComment) != "" then s.(comments := s.comments + 1, newComment := "") else s
  }

  /** Liking keeps the like count consistent with the post's. */
  lemma LikeKeepsConsistent(s: CardState, postLikes: int)
    requires LikesConsistent(s, postLikes)
    ensures LikesConsistent(Like(s), postLikes)
  {
  }

  /** Liking twice gives back the state before. */
  lemma LikeTwiceRestores(s: CardState)
    ensures Like(Like(s)) == s
  {
  }

  /** The card's state. */
  class Card {
    const postLikes: int
    var likes: int
    var isLiked: bool
    var comments: int
    var showComments: bool
    var newComment: string

    function State(): CardState
      reads this
    {
      CardState(likes, isLiked, comments, newComment)
    }

    ghost predicate Valid()
      reads this
    {
      LikesConsistent(State(), postLikes)
    }

    constructor (postLikesIn: int, postComments: int)
      ensures postLikes == postLikesIn
      ensures State() == CardState(postLikesIn, false, postComments, "") && !showComments
      ensures Valid()
    {
      postLikes := postLikesIn;
      likes, isLiked, comments := postLikesIn, false, postComments;
      showComments, newComment := false, "";
    }

    method HandleLike()
      requires Valid()
      modifies this
      ensures State() == Like(old(State())) && showComments == old(showComments)
      ensures Valid()
    {
      if isLiked {
        likes := likes - 1;
      } else {
        likes := likes + 1;
      }
      isLiked := !isLiked;
    }

    /** Typing in the comment box. */
    method SetNewComment(value: string)
      modifies this
      ensures State() == old(State()).(newComment := value) && showComments == old(showComments)
    {
      newComment := value;
    }

    method HandleAddComment()
      modifies this
      ensures State() == AddComment(old(State())) && showComments == old(showComments)
    {
      if Trim(newComment) != "" {
        comments := comments + 1;
        newComment := "";
      }
    }

    /** The comments button shows or hides the comment box. */
    method ToggleComments()
      modifies this
      ensures showComments == !old(showComments) && State() == old(State())
    {
      showComments := !showComments;
    }
  }
}
