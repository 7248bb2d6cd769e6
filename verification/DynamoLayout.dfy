/**
 The single DynamoDB table: a flat map from text keys to items. Key texts of the four
 families never collide, and the two text queries select exactly one family of one post,
 so the flat table carries the same records as the store's four maps.
 */
module DynamoLayout {
  import opened Options
  import opened Community
  import opened DynamoStore
  import opened Text

  datatype Key = PostKey(id: int) | CommentKey(p: int, id: int) | ThumbKey(p: int, voter: string) | CounterKey

  /** Partition key and sort key. */
  type TextKey = (string, string)

  datatype Item =
    | PostItem(post: PostView)
    | CommentItem(comment: CommentView)
    | ThumbItem(voter: string, d: Direction)
    | CounterItem(n: int)

  type Table = map<TextKey, Item>

  function PostPk(p: int): string { "POST#" + IntText(p) }

  function ThumbPk(p: int): string { "THUMB#POST#" + IntText(p) }

  function KeyText(k: Key): TextKey {
    match k
    case PostKey(id) => (PostPk(id), "META")
    case CommentKey(p, id) => (PostPk(p), "COMMENT#" + IntText(id))
    case ThumbKey(p, voter) => (ThumbPk(p), "VOTER#" + voter)
    case CounterKey => ("COUNTER", "COUNTER")
  }

  lemma PkInjective(p: int, q: int)
    ensures PostPk(p) == PostPk(q) ==> p == q
    ensures ThumbPk(p) == ThumbPk(q) ==> p == q
    ensures PostPk(p) != ThumbPk(q)
  {
    if PostPk(p) == PostPk(q) {
      PrefixCancels("POST#", IntText(p), IntText(q));
      IntTextInjective(p, q);
    }
    if ThumbPk(p) == ThumbPk(q) {
      PrefixCancels("THUMB#POST#", IntText(p), IntText(q));
      IntTextInjective(p, q);
    }
    assert PostPk(p)[0] == 'P' && ThumbPk(q)[0] == 'T';
  }

  lemma Initials(k: Key)
    ensures KeyText(k).0 != "" && KeyText(k).1 != ""
    ensures KeyText(k).0[0] == if k.PostKey? || k.CommentKey? then 'P' else if k.ThumbKey? then 'T' else 'C'
    ensures KeyText(k).1[0] == if k.PostKey? then 'M' else if k.ThumbKey? then 'V' else 'C'
  {
  }

  /** No two keys share a text, for all ids and all voters. */
  lemma KeyTextInjective(j: Key, k: Key)
    requires KeyText(j) == KeyText(k)
    ensures j == k
  {
    Initials(j);
    Initials(k);
    match j
    case PostKey(id) => PkInjective(id, k.id);
    case CommentKey(p, id) =>
      PkInjective(p, k.p);
      PrefixCancels("COMMENT#", IntText(id), IntText(k.id));
      IntTextInjective(id, k.id);
    case ThumbKey(p, voter) =>
      PkInjective(p, k.p);
      PrefixCancels("VOTER#", voter, k.voter);
    case CounterKey =>
  }

  function Find(s: Store, k: Key): Option<Item> {
    match k
    case PostKey(id) => if id in s.posts then Some(PostItem(PostView(id, s.posts[id]))) else None
    case CommentKey(p, id) =>
      if (p, id) in s.comments then Some(CommentItem(CommentView(id, p, s.comments[(p, id)]))) else None
    case ThumbKey(p, voter) => if (p, voter) in s.thumbs then Some(ThumbItem(voter, s.thumbs[(p, voter)])) else None
    case CounterKey => if s.lastId == 0 then None else Some(CounterItem(s.lastId))
  }

  /** The table holds the store's records under their texts, and nothing else. */
  ghost predicate Represents(t: Table, s: Store) {
    && (forall k :: Lookup(t, KeyText(k)) == Find(s, k))
    && (forall x :: x in t ==> exists k :: KeyText(k) == x)
  }

  ghost predicate SameBut(s: Store, s': Store, k: Key) {
    forall j :: j != k ==> Find(s', j) == Find(s, j)
  }

  lemma PutRepresents(t: Table, s: Store, k: Key, item: Item, s': Store)
    requires Represents(t, s) && SameBut(s, s', k) && Find(s', k) == Some(item)
    ensures Represents(t[KeyText(k) := item], s')
  {
    hide KeyText, Find;
    var t' := t[KeyText(k) := item];
    forall j ensures Lookup(t', KeyText(j)) == Find(s', j) {
      assert Lookup(t, KeyText(j)) == Find(s, j);
      if KeyText(j) == KeyText(k) {
        KeyTextInjective(j, k);
      }
    }
  }

  lemma RemoveRepresents(t: Table, s: Store, k: Key, s': Store)
    requires Represents(t, s) && SameBut(s, s', k) && Find(s', k) == None
    ensures Represents(t - {KeyText(k)}, s')
  {
    hide KeyText, Find;
    var t' := t - {KeyText(k)};
    forall j ensures Lookup(t', KeyText(j)) == Find(s', j) {
      assert Lookup(t, KeyText(j)) == Find(s, j);
      if KeyText(j) == KeyText(k) {
        KeyTextInjective(j, k);
      }
    }
  }

  /** The post's own partition, and a sort key with the prefix of comments. */
  predicate InCommentQuery(p: int, x: TextKey) {
    x.0 == PostPk(p) && "COMMENT#" <= x.1
  }

  /** The partition of the post's thumbs. */
  predicate InThumbQuery(p: int, x: TextKey) {
    x.0 == ThumbPk(p)
  }

  /** A key's text passes a query exactly when the key belongs to that family of that post. */
  lemma QueriesSelect(k: Key, p: int)
    ensures InCommentQuery(p, KeyText(k)) <==> k.CommentKey? && k.p == p
    ensures InThumbQuery(p, KeyText(k)) <==> k.ThumbKey? && k.p == p
  {
    Initials(k);
    assert PostPk(p)[0] == 'P' && ThumbPk(p)[0] == 'T';
    if k.PostKey? || k.CommentKey? {
      PkInjective(if k.PostKey? then k.id else k.p, p);
    } else if k.ThumbKey? {
      PkInjective(k.p, p);
    }
  }
}
