/** A post's comments and their likes, with the counters kept beside them. */
module Comments {
  import opened Common

  datatype CommentStatus = PUBLISHED | HIDDEN

  datatype Comment = Comment(postId: string, status: CommentStatus, deleted: bool)

  datatype Tables = Tables(
    comments: map<string, Comment>, likes: set<(string, string)>, likeCounts: map<string, int>,
      commentCounts: map<string, int>)

  datatype Change =
    | NewPost(postId: string)
    | Create(id: string, postId: string)
    | SoftDelete(id: string)
    | Transition(id: string, to: CommentStatus)
    | Like(id: string, userId: string)
    | Unlike(id: string, userId: string)

  function Other(status: CommentStatus): CommentStatus { if status.PUBLISHED? then HIDDEN else PUBLISHED }

  function Counted(t: Tables, postId: string, delta: int): Tables {
    if postId in t.commentCounts then t.(commentCounts := t.commentCounts[postId := t.commentCounts[postId] + delta])
    else t
  }

  function WithComment(t: Tables, id: string, comment: Comment): Tables {
    t.(comments := t.comments[id := comment])
  }

  /** One transaction; a change that does not apply leaves everything as it is. */
  function Apply(t: Tables, change: Change): Tables {
    match change
    case NewPost(postId) => if postId in t.commentCounts then t else t.(commentCounts := t.commentCounts[postId := 0])
    case Create(id, postId) =>
      if id in t.comments || postId !in t.commentCounts then t
      else
        Counted(WithComment(t, id, Comment(postId, PUBLISHED, false)), postId, 1).(likeCounts := t.likeCounts[id := 0])
    case SoftDelete(id) =>
      if id !in t.comments || t.comments[id].deleted then t
      else Counted(WithComment(t, id, t.comments[id].(deleted := true)), t.comments[id].postId, -1)
    case Transition(id, to) =>
      if id !in t.comments || t.comments[id].status != Other(to) then t
      else
        Counted(WithComment(t, id, t.comments[id].(status := to)), t.comments[id].postId,
          if to.PUBLISHED? then 1 else -1)
    case Like(id, userId) =>
      if id !in t.likeCounts || (id, userId) in t.likes then t
      else t.(likes := t.likes + {(id, userId)}, likeCounts := t.likeCounts[id := t.likeCounts[id] + 1])
    case Unlike(id, userId) =>
      if id !in t.likeCounts || (id, userId) !in t.likes then t
      else t.(likes := t.likes - {(id, userId)}, likeCounts := t.likeCounts[id := t.likeCounts[id] - 1])
  }

  function Run(t: Tables, changes: seq<Change>): Tables
    decreases |changes|
  {
    if changes == [] then t else Run(Apply(t, changes[0]), changes[1..])
  }

  const Nothing := Tables(map[], {}, map[], map[])

  // ---------------------------------------------------------------- what the counters count

  datatype Trait = Published | Deleted | Visible | HiddenAndDeleted

  predicate Has(c: Comment, kind: Trait) {
    match kind
    case Published => c.status.PUBLISHED?
    case Deleted => c.deleted
    case Visible => c.status.PUBLISHED? && !c.deleted
    case HiddenAndDeleted => c.status.HIDDEN? && c.deleted
  }

  function Those(comments: map<string, Comment>, postId: string, kind: Trait): set<string> {
    set id | id in comments && comments[id].postId == postId && Has(comments[id], kind)
  }

  function LikesOf(likes: set<(string, string)>, id: string): set<(string, string)> {
    set like | like in likes && like.0 == id
  }

  predicate PostIsCounted(t: Tables, postId: string)
    requires postId in t.commentCounts
  {
    t.commentCounts[postId] == |Those(t.comments, postId, Published)| - |Those(t.comments, postId, Deleted)|
  }

  predicate CommentsAreCounted(t: Tables) {
    && (forall id | id in t.comments :: t.comments[id].postId in t.commentCounts && id in t.likeCounts)
    && (forall postId | postId in t.commentCounts :: PostIsCounted(t, postId))
  }

  predicate LikesAreCounted(t: Tables) {
    && (forall like | like in t.likes :: like.0 in t.likeCounts)
    && (forall id | id in t.likeCounts :: t.likeCounts[id] == |LikesOf(t.likes, id)|)
    && t.likeCounts.Keys == t.comments.Keys
  }

  predicate Counts(t: Tables) { CommentsAreCounted(t) && LikesAreCounted(t) }

  lemma OneMember<T>(before: set<T>, after: set<T>, x: T)
    requires after - {x} == before - {x}
    ensures |after| == |before| + if (x in before) == (x in after) then 0 else if x in before then -1 else 1
  {
    assert before == if x in before then (before - {x}) + {x} else before - {x};
    assert after == if x in after then (after - {x}) + {x} else after - {x};
  }

  /** How a set of comments changes with one comment. */
  lemma ThoseWith(comments: map<string, Comment>, id: string, comment: Comment, postId: string, kind: Trait)
    requires id in comments ==> comments[id].postId == comment.postId
    ensures
      var was := id in comments && Has(comments[id], kind);
      var size := |Those(comments[id := comment], postId, kind)|;
      size == |Those(comments, postId, kind)|
        + if postId != comment.postId || was == Has(comment, kind) then 0 else if was then -1 else 1
  {
    var before, after := Those(comments, postId, kind), Those(comments[id := comment], postId, kind);
    forall x | x != id ensures x in after <==> x in before {
    }
    assert id in after <==> postId == comment.postId && Has(comment, kind);
    assert id in before <==> postId == comment.postId && id in comments && Has(comments[id], kind);
    OneMember(before, after, id);
  }

  lemma CommentChanges(t: Tables, id: string, comment: Comment, delta: int)
    requires CommentsAreCounted(t) && comment.postId in t.commentCounts
    requires id in t.comments ==> t.comments[id].postId == comment.postId
    requires
      var was := id in t.comments;
      delta ==
        (if comment.status.PUBLISHED? then 1 else 0) - (if was && t.comments[id].status.PUBLISHED? then 1 else 0)
        - (if comment.deleted then 1 else 0) + (if was && t.comments[id].deleted then 1 else 0)
    ensures forall postId | postId in t.commentCounts ::
      PostIsCounted(Counted(WithComment(t, id, comment), comment.postId, delta), postId)
  {
    forall postId | postId in t.commentCounts
      ensures PostIsCounted(Counted(WithComment(t, id, comment), comment.postId, delta), postId)
    {
      assert PostIsCounted(t, postId);
      ThoseWith(t.comments, id, comment, postId, Published);
      ThoseWith(t.comments, id, comment, postId, Deleted);
    }
  }

  lemma CreateKeeps(t: Tables, id: string, postId: string)
    requires Counts(t)
    ensures Counts(Apply(t, Create(id, postId)))
  {
    if id !in t.comments && postId in t.commentCounts {
      var after := Apply(t, Create(id, postId));
      var counted := Counted(WithComment(t, id, Comment(postId, PUBLISHED, false)), postId, 1);
      CommentChanges(t, id, Comment(postId, PUBLISHED, false), 1);
      forall p | p in after.commentCounts ensures PostIsCounted(after, p) {
        assert PostIsCounted(counted, p);
      }
    }
  }

  lemma ChangedCommentKeeps(t: Tables, id: string, comment: Comment, delta: int)
    requires Counts(t) && id in t.comments && comment.postId == t.comments[id].postId
    requires delta ==
        (if comment.status.PUBLISHED? then 1 else 0) - (if t.comments[id].status.PUBLISHED? then 1 else 0)
        - (if comment.deleted then 1 else 0) + (if t.comments[id].deleted then 1 else 0)
    ensures Counts(Counted(WithComment(t, id, comment), comment.postId, delta))
  {
    var after := Counted(WithComment(t, id, comment), comment.postId, delta);
    CommentChanges(t, id, comment, delta);
    LikesUntouched(t, after);
    forall other | other in after.comments
      ensures after.comments[other].postId in after.commentCounts && other in after.likeCounts {
      assert other in t.comments && t.comments[other].postId in t.commentCounts;
    }
  }

  lemma LikesUntouched(t: Tables, after: Tables)
    requires LikesAreCounted(t) && after.likes == t.likes && after.likeCounts == t.likeCounts
    requires after.comments.Keys == t.comments.Keys
    ensures LikesAreCounted(after)
  {
  }

  lemma CommentChangeKeeps(t: Tables, change: Change)
    requires Counts(t) && (change.Create? || change.SoftDelete? || change.Transition?)
    ensures Counts(Apply(t, change))
  {
    match change {
      case Create(id, postId) => CreateKeeps(t, id, postId);
      case SoftDelete(id) =>
        if id in t.comments && !t.comments[id].deleted {
          ChangedCommentKeeps(t, id, t.comments[id].(deleted := true), -1);
        }
      case Transition(id, to) =>
        if id in t.comments && t.comments[id].status == Other(to) {
          ChangedCommentKeeps(t, id, t.comments[id].(status := to), if to.PUBLISHED? then 1 else -1);
        }
    }
  }

  lemma LikeChangesItsOwn(likes: set<(string, string)>, like: (string, string), id: string)
    ensures like !in likes ==> |LikesOf(likes + {like}, id)| == |LikesOf(likes, id)| + if id == like.0 then 1 else 0
    ensures like in likes ==> |LikesOf(likes - {like}, id)| == |LikesOf(likes, id)| - if id == like.0 then 1 else 0
  {
    OneMember(LikesOf(likes, id), LikesOf(likes + {like}, id), like);
    OneMember(LikesOf(likes, id), LikesOf(likes - {like}, id), like);
  }

  lemma LikeChangeCounts(t: Tables, change: Change)
    requires LikesAreCounted(t) && (change.Like? || change.Unlike?)
    ensures LikesAreCounted(Apply(t, change))
  {
    var after := Apply(t, change);
    forall id | id in after.likeCounts ensures after.likeCounts[id] == |LikesOf(after.likes, id)| {
      LikeChangesItsOwn(t.likes, (change.id, change.userId), id);
    }
  }

  lemma LikeChangeKeeps(t: Tables, change: Change)
    requires Counts(t) && (change.Like? || change.Unlike?)
    ensures Counts(Apply(t, change))
  {
    LikeChangeCounts(t, change);
    forall postId | postId in t.commentCounts ensures PostIsCounted(Apply(t, change), postId) {
      assert PostIsCounted(t, postId);
    }
  }

  lemma ApplyKeeps(t: Tables, change: Change)
    requires Counts(t)
    ensures Counts(Apply(t, change))
  {
    match change {
      case NewPost(postId) =>
      case Like(_, _) => LikeChangeKeeps(t, change);
      case Unlike(_, _) => LikeChangeKeeps(t, change);
      case _ => CommentChangeKeeps(t, change);
    }
  }

  lemma {:induction false} RunKeeps(t: Tables, changes: seq<Change>)
    requires Counts(t)
    ensures Counts(Run(t, changes))
    decreases |changes|
  {
    if changes != [] {
      ApplyKeeps(t, changes[0]);
      RunKeeps(Apply(t, changes[0]), changes[1..]);
    }
  }

  lemma VisibleIsPublishedLessDeleted(comments: map<string, Comment>, postId: string)
    ensures |Those(comments, postId, Visible)| - |Those(comments, postId, HiddenAndDeleted)|
      == |Those(comments, postId, Published)| - |Those(comments, postId, Deleted)|
  {
    var both := Those(comments, postId, Published) * Those(comments, postId, Deleted);
    assert Those(comments, postId, Published) == Those(comments, postId, Visible) + both;
    assert |Those(comments, postId, Visible) + both| == |Those(comments, postId, Visible)| + |both|;
    assert Those(comments, postId, Deleted) == Those(comments, postId, HiddenAndDeleted) + both;
    assert |Those(comments, postId, HiddenAndDeleted) + both| == |Those(comments, postId, HiddenAndDeleted)| + |both|;
  }

  /** Over every run, a comment's like counter is its number of likes. */
  lemma LikeCountIsExact(changes: seq<Change>, id: string)
    requires id in Run(Nothing, changes).comments
    ensures var t := Run(Nothing, changes); id in t.likeCounts && t.likeCounts[id] == |LikesOf(t.likes, id)|
  {
    RunKeeps(Nothing, changes);
  }

  /**
   * Over every run, a post's counter is its visible comments less those both hidden and deleted: a hidden
   * comment is no longer counted, and deleting it counts it out once more. So the counter is the number of
   * visible comments exactly when no comment of the post is both.
   */
  lemma CommentCountIsVisibleLessHiddenDeleted(changes: seq<Change>, postId: string)
    requires postId in Run(Nothing, changes).commentCounts
    ensures
      var t := Run(Nothing, changes);
      && t.commentCounts[postId] == |Those(t.comments, postId, Visible)| - |Those(t.comments, postId, HiddenAndDeleted)|
      && (t.commentCounts[postId] == |Those(t.comments, postId, Visible)| <==>
            forall id | id in t.comments && t.comments[id].postId == postId ::
              t.comments[id].deleted ==> t.comments[id].status.PUBLISHED?)
  {
    RunKeeps(Nothing, changes);
    CountIs(Run(Nothing, changes), postId);
    HiddenAndDeletedIsNone(Run(Nothing, changes).comments, postId);
  }

  lemma CountIs(t: Tables, postId: string)
    requires CommentsAreCounted(t) && postId in t.commentCounts
    ensures t.commentCounts[postId] ==
      |Those(t.comments, postId, Visible)| - |Those(t.comments, postId, HiddenAndDeleted)|
  {
    assert PostIsCounted(t, postId);
    VisibleIsPublishedLessDeleted(t.comments, postId);
  }

  lemma HiddenAndDeletedIsNone(comments: map<string, Comment>, postId: string)
    ensures |Those(comments, postId, HiddenAndDeleted)| == 0 <==>
      forall id | id in comments && comments[id].postId == postId ::
        comments[id].deleted ==> comments[id].status.PUBLISHED?
  {
    var both := Those(comments, postId, HiddenAndDeleted);
    if both != {} {
      var id :| id in both;
      assert comments[id].deleted && comments[id].status.HIDDEN?;
    }
    assert both == {} ==> forall id | id in comments && comments[id].postId == postId && comments[id].deleted ::
      id !in both;
  }

  predicate IsLiked(t: Tables, id: string, userId: string) { (id, userId) in t.likes }

  predicate CommentIsLeft(t: Tables, change: Change, next: Tables, id: string) {
    && id in next.comments
    && (id in t.comments ==>
          next.comments[id] ==
            if change == SoftDelete(id) then t.comments[id].(deleted := true)
            else if change.Transition? && change.id == id then t.comments[id].(status := change.to)
            else t.comments[id])
    && (id !in t.comments ==>
          change.Create? && change.id == id && change.postId in t.commentCounts
          && next.comments[id] == Comment(change.postId, PUBLISHED, false))
  }

  /** What each change leaves, over every run: which comments there are, and how. */
  lemma ChangesLeaveTheseComments(changes: seq<Change>, change: Change)
    ensures
      var t, next := Run(Nothing, changes), Apply(Run(Nothing, changes), change);
      && (forall id | id in t.comments || id in next.comments :: CommentIsLeft(t, change, next, id))
      && (change.Create? && change.postId in t.commentCounts ==> change.id in next.comments)
      && (forall postId :: postId in next.commentCounts <==> postId in t.commentCounts || change == NewPost(postId))
  {
    RunKeeps(Nothing, changes);
    TheseCommentsAreLeft(Run(Nothing, changes), change);
  }

  lemma TheseCommentsAreLeft(t: Tables, change: Change)
    requires forall id | id in t.comments :: t.comments[id].postId in t.commentCounts
    ensures
      var next := Apply(t, change);
      && (forall id | id in t.comments || id in next.comments :: CommentIsLeft(t, change, next, id))
      && (change.Create? && change.postId in t.commentCounts ==> change.id in next.comments)
      && (forall postId :: postId in next.commentCounts <==> postId in t.commentCounts || change == NewPost(postId))
  {
  }

  /** What each change leaves, over every run: who likes which comment. */
  lemma ChangesLeaveTheseLikes(changes: seq<Change>, change: Change, id: string, userId: string)
    ensures
      var t, next := Run(Nothing, changes), Apply(Run(Nothing, changes), change);
      IsLiked(next, id, userId) <==>
        if change == Like(id, userId) then id in t.comments
        else change != Unlike(id, userId) && IsLiked(t, id, userId)
  {
    RunKeeps(Nothing, changes);
    var t := Run(Nothing, changes);
    assert t.likeCounts.Keys == t.comments.Keys;
    assert id in t.likeCounts <==> id in t.comments;
  }

  /** A post whose only comment is hidden and then deleted by its author ends up below zero. */
  lemma HiddenThenDeletedGoesNegative(post: string, comment: string)
    ensures
      var t := Run(Nothing, [NewPost(post), Create(comment, post), Transition(comment, HIDDEN), SoftDelete(comment)]);
      post in t.commentCounts && t.commentCounts[post] == -1 && Those(t.comments, post, Visible) == {}
  {
    var changes := [NewPost(post), Create(comment, post), Transition(comment, HIDDEN), SoftDelete(comment)];
    var t1 := Apply(Nothing, changes[0]);
    var t2 := Apply(t1, changes[1]);
    var t3 := Apply(t2, changes[2]);
    var t4 := Apply(t3, changes[3]);
    assert changes[1..][1..] == changes[2..] && changes[2..][1..] == changes[3..] && changes[3..][1..] == [];
    assert Run(Nothing, changes) ==
      Run(t1, changes[1..]) == Run(t2, changes[2..]) == Run(t3, changes[3..]) == Run(t4, []);
  }

  // ---------------------------------------------------------------- the transactions, statement by statement

  class CommentsRepository {
    var comments: map<string, Comment>
    var likes: set<(string, string)>
    var likeCounts: map<string, int>
    var commentCounts: map<string, int>

    function Contents(): Tables
      reads this
    {
      Tables(comments, likes, likeCounts, commentCounts)
    }

    constructor ()
      ensures Contents() == Nothing && Counts(Contents())
    {
      comments, likes, likeCounts, commentCounts := map[], {}, map[], map[];
    }

    method IncrementCommentCount(postId: string, delta: int)
      requires postId in commentCounts
      modifies this`commentCounts
      ensures Contents() == Counted(old(Contents()), postId, delta)
    {
      commentCounts := commentCounts[postId := commentCounts[postId] + delta];
    }

    method Insert(id: string, postId: string)
      requires id !in comments && postId in commentCounts
      modifies this
      ensures Contents() == Apply(old(Contents()), Create(id, postId))
      ensures Contents() ==
        Tables(old(comments)[id := Comment(postId, PUBLISHED, false)], old(likes), old(likeCounts)[id := 0],
          old(commentCounts)[postId := old(commentCounts)[postId] + 1])
    {
      comments, likeCounts := comments[id := Comment(postId, PUBLISHED, false)], likeCounts[id := 0];
      IncrementCommentCount(postId, 1);
    }

    method CreateComment(id: string, postId: string)
      requires Counts(Contents()) && id !in comments && postId in commentCounts
      modifies this
      ensures Contents() == Apply(old(Contents()), Create(id, postId)) && Counts(Contents())
    {
      CreateKeeps(Contents(), id, postId);
      Insert(id, postId);
    }

    /** False when the comment was already deleted. */
    method SoftDeleteComment(id: string) returns (deleted: bool)
      requires Counts(Contents())
      modifies this
      ensures deleted <==> id in old(comments) && !old(comments)[id].deleted
      ensures Contents() == Apply(old(Contents()), SoftDelete(id)) && Counts(Contents())
      ensures likes == old(likes) && likeCounts == old(likeCounts)
      ensures comments == if deleted then old(comments)[id := old(comments)[id].(deleted := true)] else old(comments)
    {
      ghost var start := Contents();
      deleted := id in comments && !comments[id].deleted;
      if deleted {
        comments := comments[id := comments[id].(deleted := true)];
        IncrementCommentCount(comments[id].postId, -1);
      }
      assert Contents() == Apply(start, SoftDelete(id));
      ApplyKeeps(start, SoftDelete(id));
    }

    /** Hides or restores; false when the comment was no longer in the status to leave. */
    method TransitionStatus(id: string, to: CommentStatus) returns (moved: bool)
      requires Counts(Contents())
      modifies this
      ensures moved <==> id in old(comments) && old(comments)[id].status != to
      ensures Contents() == Apply(old(Contents()), Transition(id, to)) && Counts(Contents())
      ensures likes == old(likes) && likeCounts == old(likeCounts)
      ensures comments == if moved then old(comments)[id := old(comments)[id].(status := to)] else old(comments)
    {
      ghost var start := Contents();
      moved := id in comments && comments[id].status == Other(to);
      if moved {
        comments := comments[id := comments[id].(status := to)];
        IncrementCommentCount(comments[id].postId, if to.PUBLISHED? then 1 else -1);
      }
      assert Contents() == Apply(start, Transition(id, to));
      ApplyKeeps(start, Transition(id, to));
    }

    method LikeComment(id: string, userId: string) returns (likeCount: int, changed: bool)
      requires Counts(Contents()) && id in comments
      modifies this`likes, this`likeCounts
      ensures changed <==> (id, userId) !in old(likes)
      ensures Contents() == Apply(old(Contents()), Like(id, userId)) && Counts(Contents())
      ensures likes == old(likes) + {(id, userId)}
      ensures id in likeCounts && likeCount == likeCounts[id] == |LikesOf(likes, id)|
    {
      ghost var start := Contents();
      changed := (id, userId) !in likes;
      if changed {
        likes := likes + {(id, userId)};
        likeCounts := likeCounts[id := likeCounts[id] + 1];
      }
      likeCount := likeCounts[id];
      assert Contents() == Apply(start, Like(id, userId));
      ApplyKeeps(start, Like(id, userId));
    }

    method UnlikeComment(id: string, userId: string) returns (likeCount: int, changed: bool)
      requires Counts(Contents()) && id in comments
      modifies this`likes, this`likeCounts
      ensures changed <==> (id, userId) in old(likes)
      ensures Contents() == Apply(old(Contents()), Unlike(id, userId)) && Counts(Contents())
      ensures likes == old(likes) - {(id, userId)}
      ensures id in likeCounts && likeCount == likeCounts[id] == |LikesOf(likes, id)|
    {
      ghost var start := Contents();
      changed := (id, userId) in likes;
      if changed {
        likes := likes - {(id, userId)};
        likeCounts := likeCounts[id := likeCounts[id] - 1];
      }
      likeCount := likeCounts[id];
      assert Contents() == Apply(start, Unlike(id, userId));
      ApplyKeeps(start, Unlike(id, userId));
    }
  }
}
