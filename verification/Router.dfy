/** The router's handlers over the DynamoDB adapter and the Redis cache. */
module Router {
  import opened Options
  import opened Community
  import opened Cache
  import opened Nesting
  import opened RouterSpec
  import Dy = DynamoStore
  import DynamoRepository
  import opened Answers
  import Interleaving
  import SoloRuns

  /** A write reads nothing that is shown. */
  const NOTHING_READ: Result<Content> := Err(PostNotFound)

  /** The tree as it is serialised. */
  method Render(top: seq<Node>, ghost nodes: seq<Node>, ghost all: seq<Dy.CommentView>) returns (threads: seq<Thread>)
    requires CommentsOf(top) == Tops(all, all) && Attached(nodes, all) && forall n :: n in top ==> n in nodes
    ensures threads == Threads(all)
  {
    threads := [];
    for i := 0 to |top|
      invariant threads == Threads(all)[..i]
    {
      var node := top[i];
      assert node in top;
      assert node.comment == CommentsOf(top)[i];
      threads := threads + [Thread(node.comment, CommentsOf(node.replies))];
    }
  }

  class Handlers {
    const repo: DynamoRepository.Repository
    const cache: Redis<Content>
    const ttl: int

    constructor (repo: DynamoRepository.Repository, cache: Redis<Content>, ttl: int)
      ensures this.repo == repo && this.cache == cache && this.ttl == ttl
    {
      this.repo, this.cache, this.ttl := repo, cache, ttl;
    }

    ghost function Now(): State
      reads repo, cache
    {
      State(repo.store, cache.entries)
    }

    ghost predicate Valid()
      reads repo
    {
      repo.Valid() && Interleaving.Valid(repo.store)
    }

    /** `direct` is what the store answers if it is asked. */
    method ListPosts(page: nat, size: nat, filter: Option<string>, now: int, f: Faults)
      returns (r: Response, ghost direct: Result<Content>)
      requires Valid() && page >= 1 && size >= 1
      modifies cache
      ensures Valid() && MayAnswer(repo.store, RouterSpec.ListPosts(page, size, filter), direct)
      ensures (Now(), r) == Handle(old(Now()), RouterSpec.ListPosts(page, size, filter), now, ttl, f, direct)
      ensures direct.Ok? && PageMeans(repo.store, page, size, filter, direct.value)
    {
      hide PageMeans;
      hide Interleaving.Valid, ListKey;
      var key := ListKey(page, size, filter);
      direct := AnswerExists(repo.store, RouterSpec.ListPosts(page, size, filter));
      ListMeans(repo.store, page, size, filter, direct.value);
      var cached := cache.Get(key, now, f.read);
      if cached.Some? {
        r := Shown(cached.value);
        return;
      }
      var posts, total := repo.ListPosts(page, size, filter);
      var result := PostPage(posts, total, page, size);
      direct := Ok(result);
      ListMeans(repo.store, page, size, filter, result);
      cache.SetEx(key, result, now, ttl, f.write);
      r := Shown(result);
    }

    method GetPost(p: int, now: int, f: Faults) returns (r: Response, ghost direct: Result<Content>)
      requires Valid()
      modifies cache
      ensures Valid() && MayAnswer(repo.store, RouterSpec.GetPost(p), direct)
      ensures (Now(), r) == Handle(old(Now()), RouterSpec.GetPost(p), now, ttl, f, direct)
      ensures direct.Ok? ==> DetailMeans(repo.store, p, direct.value)
      ensures direct == Err(PostNotFound) <==> p !in repo.store.posts
    {
      var key := DetailKey(p);
      direct := AnswerExists(repo.store, RouterSpec.GetPost(p));
      if direct.Ok? {
        AnswerMeans(repo.store, p, direct.value);
      }
      hide DetailMeans;
      var cached := cache.Get(key, now, f.read);
      if cached.Some? {
        r := Shown(cached.value);
        return;
      }
      var post := repo.GetPost(p);
      var comments := repo.GetPostComments(p);
      if post.Err? {
        r := Failed(post.error);
        return;
      }
      StoredCommentsNest(repo.store, p, comments);
      var top, nodes := Nest(comments);
      var threads := Render(top, nodes, comments);
      var detail := PostDetail(post.value, threads);
      assert Joins(repo.store, repo.store, p, detail);
      direct := Ok(detail);
      AnswerMeans(repo.store, p, detail);
      cache.SetEx(key, detail, now, ttl, f.write);
      r := Shown(detail);
    }

    method CreatePost(author: string, title: string, body: string, postType: string, now: int, f: Faults)
      returns (r: Response)
      requires Valid()
      modifies repo, cache
      ensures Valid()
      ensures var req := RouterSpec.CreatePost(author, title, body, postType);
        (Now(), r) == Handle(old(Now()), req, now, ttl, f, NOTHING_READ)
      ensures WriteAnswered(old(repo.store), repo.store, RouterSpec.CreatePost(author, title, body, postType), now, r)
    {
      SoloRuns.PostKeepsValid(repo.store, author, title, body, postType, now);
      HandleMeans(Now(), RouterSpec.CreatePost(author, title, body, postType), now, ttl, f, NOTHING_READ);
      hide Interleaving.Valid, WriteAnswered;
      var post := repo.CreatePost(author, title, body, postType, now);
      cache.DeletePattern(LIST_PREFIX + "*", f.kept);
      r := Created(post);
    }

    method DeletePost(p: int, user: string, now: int, f: Faults) returns (r: Response)
      requires Valid()
      modifies repo, cache
      ensures Valid() && (Now(), r) == Handle(old(Now()), RouterSpec.DeletePost(p, user), now, ttl, f, NOTHING_READ)
      ensures WriteAnswered(old(repo.store), repo.store, RouterSpec.DeletePost(p, user), now, r)
    {
      SoloRuns.DeleteKeepsValid(repo.store, p, user);
      HandleMeans(Now(), RouterSpec.DeletePost(p, user), now, ttl, f, NOTHING_READ);
      hide Interleaving.Valid, WriteAnswered;
      var done := repo.DeletePost(p, user);
      if done.Err? {
        return Failed(done.error);
      }
      cache.DeletePattern(LIST_PREFIX + "*", f.kept);
      cache.DeletePattern(DetailKey(p), f.kept);
      r := Gone;
    }

    method CreateComment(p: int, author: string, body: string, parent: Option<int>, now: int, f: Faults)
      returns (r: Response)
      requires Valid()
      modifies repo, cache
      ensures Valid()
      ensures var req := RouterSpec.CreateComment(p, author, body, parent);
        (Now(), r) == Handle(old(Now()), req, now, ttl, f, NOTHING_READ)
      ensures WriteAnswered(old(repo.store), repo.store, RouterSpec.CreateComment(p, author, body, parent), now, r)
    {
      SoloRuns.CommentKeepsValid(repo.store, p, author, body, parent, now);
      HandleMeans(Now(), RouterSpec.CreateComment(p, author, body, parent), now, ttl, f, NOTHING_READ);
      hide Interleaving.Valid, WriteAnswered;
      var comment := repo.CreateComment(p, author, body, parent, now);
      if comment.Err? {
        return Failed(comment.error);
      }
      cache.DeletePattern(DetailKey(p), f.kept);
      r := Commented(comment.value);
    }

    method ThumbPost(p: int, voter: string, d: Direction, now: int, f: Faults) returns (r: Response)
      requires Valid()
      modifies repo, cache
      ensures Valid() && (Now(), r) == Handle(old(Now()), RouterSpec.ThumbPost(p, voter, d), now, ttl, f, NOTHING_READ)
      ensures WriteAnswered(old(repo.store), repo.store, RouterSpec.ThumbPost(p, voter, d), now, r)
    {
      SoloRuns.ToggleKeepsValid(repo.store, p, voter, d);
      HandleMeans(Now(), RouterSpec.ThumbPost(p, voter, d), now, ttl, f, NOTHING_READ);
      hide Interleaving.Valid, WriteAnswered;
      var counts := repo.ToggleThumb(p, voter, d);
      if counts.Err? {
        return Failed(counts.error);
      }
      cache.DeletePattern(DetailKey(p), f.kept);
      r := Voted(counts.value);
    }
  }
}
