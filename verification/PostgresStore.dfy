/**
 The PostgreSQL store of the board: normalised rows, two identity sequences, votes
 recounted from their rows on every toggle, comments counted by query.
 */
module PostgresStore {
  import opened Options
  import opened Community
  import opened Arrangements

  datatype PostRec = PostRec(
    author: string, title: string, body: string, postType: string, created: int, up: int, down: int)

  datatype CommentRec = CommentRec(postId: int, parent: Option<int>, author: string, body: string, created: int)

  /** `nextPost` and `nextComment` are the next values of the identity columns. */
  datatype Tables = Tables(
    posts: map<int, PostRec>, comments: map<int, CommentRec>, thumbs: Votes, nextPost: int, nextComment: int)

  const EMPTY := Tables(map[], map[], map[], 1, 1)

  function CommentsOn(t: Tables, p: int): set<int> {
    set c | c in t.comments && t.comments[c].postId == p
  }

  function CommentTimes(t: Tables): map<int, int> {
    map c | c in t.comments :: t.comments[c].created
  }

  function PostTimes(t: Tables): map<int, int> {
    map p | p in t.posts :: t.posts[p].created
  }

  /** Without a filter every post is selected, with one those of exactly that type, the empty type included. */
  function SelectedIds(t: Tables, filter: Option<string>): set<int> {
    set p | p in t.posts && (filter == None || filter == Some(t.posts[p].postType))
  }

  // ---- Reads ----

  /** The rows of a post's comments in an order that `ORDER BY created_at` allows. */
  ghost predicate CommentsListed(t: Tables, p: int, rows: seq<int>) {
    Arranges(rows, CommentsOn(t, p), CommentTimes(t))
  }

  /** LIMIT and OFFSET over the newest-first selection; the total rides on the page's rows. */
  ghost predicate PageListed(t: Tables, page: nat, size: nat, filter: Option<string>, rows: seq<int>, total: nat)
    requires page >= 1
  {
    exists oldest :: (Arranges(oldest, SelectedIds(t, filter), PostTimes(t))
      && rows == Slice(Reverse(oldest), Offset(page, size), size)
      && total == if rows == [] then 0 else |oldest|)
  }

  // ---- Writes ----

  function CreatePost(t: Tables, author: string, title: string, body: string, postType: string, now: int)
    : (Tables, int)
  {
    var row := PostRec(author, title, body, postType, now, 0, 0);
    (t.(posts := t.posts[t.nextPost := row], nextPost := t.nextPost + 1), t.nextPost)
  }

  function WithoutPost(t: Tables, p: int): Tables {
    t.(posts := map q | q in t.posts && q != p :: t.posts[q],
       comments := map c | c in t.comments && t.comments[c].postId != p :: t.comments[c],
       thumbs := map k | k in t.thumbs && k.0 != p :: t.thumbs[k])
  }

  function DeletePost(t: Tables, p: int, user: string): (Tables, Result<()>) {
    if p !in t.posts then (t, Err(PostNotFound))
    else if t.posts[p].author != user then (t, Err(NotOwner))
    else (WithoutPost(t, p), Ok(()))
  }

  function ParentError(t: Tables, p: int, parent: Option<int>): Option<Error> {
    if parent == None then None
    else if parent.value !in t.comments || t.comments[parent.value].postId != p then Some(CommentNotFound)
    else if t.comments[parent.value].parent.Some? then Some(NestingTooDeep)
    else None
  }

  function CreateComment(t: Tables, p: int, author: string, body: string, parent: Option<int>, now: int)
    : (Tables, Result<int>)
  {
    if p !in t.posts then (t, Err(PostNotFound))
    else if ParentError(t, p, parent).Some? then (t, Err(ParentError(t, p, parent).value))
    else
      var row := CommentRec(p, parent, author, body, now);
      (t.(comments := t.comments[t.nextComment := row], nextComment := t.nextComment + 1), Ok(t.nextComment))
  }

  function Toggle(t: Tables, p: int, voter: string, d: Direction): (Tables, Result<Counts>) {
    if p !in t.posts then (t, Err(PostNotFound))
    else
      var thumbs := SetVote(t.thumbs, (p, voter), Flip(Lookup(t.thumbs, (p, voter)), d));
      var row := t.posts[p].(up := Tally(thumbs, p, 1), down := Tally(thumbs, p, -1));
      (t.(thumbs := thumbs, posts := t.posts[p := row]), Ok(Counts(row.up, row.down)))
  }

  /** What the schema's keys keep: references resolve, replies stay on their parent's post. */
  ghost predicate Valid(t: Tables) {
    && (forall p :: p in t.posts ==> 1 <= p < t.nextPost)
    && (forall p :: p in t.posts ==>
      t.posts[p].up == Tally(t.thumbs, p, 1) && t.posts[p].down == Tally(t.thumbs, p, -1))
    && (forall c :: c in t.comments ==> 1 <= c < t.nextComment && t.comments[c].postId in t.posts)
    && (forall c :: c in t.comments && t.comments[c].parent.Some? ==>
          var up := t.comments[c].parent.value;
          up in t.comments && t.comments[up].postId == t.comments[c].postId && t.comments[up].parent == None)
    && (forall k :: k in t.thumbs ==> k.0 in t.posts)
    && t.nextPost >= 1 && t.nextComment >= 1
  }

  lemma TallyElsewhere(votes: Votes, votes': Votes, p: int, d: Direction)
    requires forall k: VoteKey :: k.0 == p ==> Lookup(votes', k) == Lookup(votes, k)
    ensures Tally(votes', p, d) == Tally(votes, p, d)
  {
    assert forall k: VoteKey :: k.0 == p ==> (k in votes' <==> k in votes);
    assert forall k: VoteKey :: k.0 == p && k in votes ==> Lookup(votes', k) == Lookup(votes, k);
    assert Ballots(votes', p, d) == Ballots(votes, p, d);
  }

  lemma ToggleKeepsValid(t: Tables, p: int, voter: string, d: Direction)
    requires Valid(t)
    ensures Valid(Toggle(t, p, voter, d).0)
  {
    var t' := Toggle(t, p, voter, d).0;
    forall q | q in t.posts && q != p
      ensures Tally(t'.thumbs, q, 1) == Tally(t.thumbs, q, 1) && Tally(t'.thumbs, q, -1) == Tally(t.thumbs, q, -1)
    {
      TallyElsewhere(t.thumbs, t'.thumbs, q, 1);
      TallyElsewhere(t.thumbs, t'.thumbs, q, -1);
    }
  }

  lemma DeleteKeepsValid(t: Tables, p: int, user: string)
    requires Valid(t)
    ensures Valid(DeletePost(t, p, user).0)
  {
    var t' := DeletePost(t, p, user).0;
    forall q | q in t'.posts
      ensures Tally(t'.thumbs, q, 1) == Tally(t.thumbs, q, 1) && Tally(t'.thumbs, q, -1) == Tally(t.thumbs, q, -1)
    {
      TallyElsewhere(t.thumbs, t'.thumbs, q, 1);
      TallyElsewhere(t.thumbs, t'.thumbs, q, -1);
    }
  }

  lemma CreateKeepsValid(t: Tables, author: string, title: string, body: string, postType: string, now: int)
    requires Valid(t)
    ensures Valid(CreatePost(t, author, title, body, postType, now).0)
  {
    assert Ballots(t.thumbs, t.nextPost, 1) == {} && Ballots(t.thumbs, t.nextPost, -1) == {};
  }

  lemma CommentKeepsValid(t: Tables, p: int, author: string, body: string, parent: Option<int>, now: int)
    requires Valid(t)
    ensures Valid(CreateComment(t, p, author, body, parent, now).0)
  {
  }
}
