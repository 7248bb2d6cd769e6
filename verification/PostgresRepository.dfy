/** The PostgreSQL adapter: each operation as one serial transaction over the three tables. */
module PostgresRepository {
  import opened Options
  import opened Community
  import opened PostgresStore

  class Repository {
    var posts: map<int, PostRec>
    var comments: map<int, CommentRec>
    var thumbs: Votes
    var nextPost: int
    var nextComment: int

    ghost function State(): Tables
      reads this
    {
      Tables(posts, comments, thumbs, nextPost, nextComment)
    }

    constructor ()
      ensures State() == EMPTY && Valid(State())
    {
      posts, comments, thumbs, nextPost, nextComment := map[], map[], map[], 1, 1;
    }

    method CreatePost(author: string, title: string, body: string, postType: string, now: int) returns (id: int)
      requires Valid(State())
      modifies this
      ensures Valid(State())
      ensures (State(), id) == PostgresStore.CreatePost(old(State()), author, title, body, postType, now)
    {
      CreateKeepsValid(State(), author, title, body, postType, now);
      id := nextPost;
      nextPost := nextPost + 1;
      posts := posts[id := PostRec(author, title, body, postType, now, 0, 0)];
    }

    method CreateComment(p: int, author: string, body: string, parent: Option<int>, now: int) returns (r: Result<int>)
      requires Valid(State())
      modifies this
      ensures Valid(State()) && (State(), r) == PostgresStore.CreateComment(old(State()), p, author, body, parent, now)
    {
      CommentKeepsValid(State(), p, author, body, parent, now);
      if p !in posts {
        return Err(PostNotFound);
      }
      if parent.Some? {
        if !(parent.value in comments && comments[parent.value].postId == p) {
          return Err(CommentNotFound);
        }
        if comments[parent.value].parent.Some? {
          return Err(NestingTooDeep);
        }
      }
      var id := nextComment;
      nextComment := nextComment + 1;
      comments := comments[id := CommentRec(p, parent, author, body, now)];
      r := Ok(id);
    }

    /** The vote is deleted or upserted, then both directions are counted again from the rows. */
    method ToggleThumb(p: int, voter: string, d: Direction) returns (r: Result<Counts>)
      requires Valid(State())
      modifies this
      ensures Valid(State()) && (State(), r) == Toggle(old(State()), p, voter, d)
    {
      ToggleKeepsValid(State(), p, voter, d);
      if p !in posts {
        return Err(PostNotFound);
      }
      if (p, voter) in thumbs && thumbs[(p, voter)] == d {
        thumbs := thumbs - {(p, voter)};
      } else {
        thumbs := thumbs[(p, voter) := d];
      }
      var up, down := Tally(thumbs, p, 1), Tally(thumbs, p, -1);
      posts := posts[p := posts[p].(up := up, down := down)];
      r := Ok(Counts(up, down));
    }

    /** The row is deleted and the schema cascades to the rows that refer to it. */
    method DeletePost(p: int, user: string) returns (r: Result<()>)
      requires Valid(State())
      modifies this
      ensures Valid(State()) && (State(), r) == PostgresStore.DeletePost(old(State()), p, user)
    {
      DeleteKeepsValid(State(), p, user);
      if p !in posts {
        return Err(PostNotFound);
      }
      if posts[p].author != user {
        return Err(NotOwner);
      }
      comments := Cascade(comments, p);
      thumbs := map k | k in thumbs && k.0 != p :: thumbs[k];
      posts := map q | q in posts && q != p :: posts[q];
      r := Ok(());
    }
  }

  /** A reply's parent is a comment on the same post. */
  ghost predicate RepliesStay(comments: map<int, CommentRec>) {
    forall c :: c in comments && comments[c].parent.Some? ==>
      comments[c].parent.value in comments && comments[comments[c].parent.value].postId == comments[c].postId
  }

  function RepliesTo(rows: map<int, CommentRec>, gone: set<int>): set<int> {
    set c | c in rows && rows[c].parent.Some? && rows[c].parent.value in gone
  }

  lemma RepliesOnSamePost(comments: map<int, CommentRec>, rows: map<int, CommentRec>, gone: set<int>, p: int)
    requires RepliesStay(comments) && gone <= comments.Keys
    requires forall c :: c in gone ==> comments[c].postId == p
    requires forall c :: c in rows ==> c in comments && rows[c] == comments[c]
    ensures forall c :: c in RepliesTo(rows, gone) ==> c in comments && comments[c].postId == p
  {
    forall c | c in RepliesTo(rows, gone) ensures comments[c].postId == p {
      var up := rows[c].parent.value;
      assert comments[c] == rows[c] && up in gone;
    }
  }

  /**
   What ON DELETE CASCADE does to the comments of a deleted post: the rows that refer to
   the post go, then the replies to deleted rows, until nothing refers to a deleted row.
   */
  method Cascade(comments: map<int, CommentRec>, p: int) returns (rows: map<int, CommentRec>)
    requires RepliesStay(comments)
    ensures rows == map c | c in comments && comments[c].postId != p :: comments[c]
  {
    rows := comments;
    var doomed := set c | c in rows && rows[c].postId == p;
    while doomed != {}
      invariant doomed <= rows.Keys <= comments.Keys
      invariant forall c :: c in doomed ==> comments[c].postId == p
      invariant forall c :: c in comments && c !in rows - doomed ==> comments[c].postId == p
      invariant forall c :: c in comments && comments[c].postId == p ==> c !in rows || c in doomed
      invariant forall c :: c in rows ==> rows[c] == comments[c]
      decreases |rows|
    {
      var gone := doomed;
      RemovingShrinks(rows, gone);
      rows := rows - gone;
      RepliesOnSamePost(comments, rows, gone, p);
      doomed := RepliesTo(rows, gone);
    }
    var kept := map c | c in comments && comments[c].postId != p :: comments[c];
    forall c ensures Lookup(rows, c) == Lookup(kept, c) {
      assert c in rows ==> c in comments;
      assert c in rows ==> comments[c].postId != p;
      assert c in comments && comments[c].postId != p ==> c in rows - doomed;
    }
    SameMap(rows, kept);
  }

  lemma RemovingShrinks<T>(rows: map<int, T>, gone: set<int>)
    requires gone <= rows.Keys && gone != {}
    ensures |rows - gone| < |rows|
  {
    assert (rows - gone).Keys == rows.Keys - gone;
    assert |rows.Keys - gone| == |rows.Keys| - |gone|;
  }
}
