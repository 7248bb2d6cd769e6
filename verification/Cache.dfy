/**
 The Redis cache: entries that expire, deletes by glob pattern, and calls whose failures
 are swallowed. A failed read is a miss, a failed write stores nothing, and a failed
 delete may leave any of the keys it was to remove.
 */
module Cache {
  import opened Options
  import opened Community
  import opened Text

  datatype Entry<V> = Entry(value: V, expires: int)

  // ---- Glob patterns ----

  /** `*` stands for any text; every other character stands for itself. */
  predicate Matches(pattern: string, text: string)
    decreases |pattern| + |text|
  {
    if pattern == "" then text == ""
    else if pattern[0] == '*' then Matches(pattern[1..], text) || (text != "" && Matches(pattern, text[1..]))
    else text != "" && text[0] == pattern[0] && Matches(pattern[1..], text[1..])
  }

  lemma {:induction false} MatchesLiteral(pattern: string, text: string)
    requires '*' !in pattern
    ensures Matches(pattern, text) <==> pattern == text
  {
    if pattern != "" && text != "" {
      assert pattern == [pattern[0]] + pattern[1..] && text == [text[0]] + text[1..];
      MatchesLiteral(pattern[1..], text[1..]);
    }
  }

  lemma {:induction false} MatchesPrefix(prefix: string, text: string)
    requires '*' !in prefix
    ensures Matches(prefix + "*", text) <==> prefix <= text
  {
    var pattern := prefix + "*";
    if prefix == "" {
      assert pattern == "*";
      StarMatches(text);
    } else {
      assert pattern[1..] == prefix[1..] + "*" && pattern[0] == prefix[0];
      if text != "" {
        MatchesPrefix(prefix[1..], text[1..]);
        assert prefix <= text <==> prefix[0] == text[0] && prefix[1..] <= text[1..];
      }
    }
  }

  lemma {:induction false} StarMatches(text: string)
    ensures Matches("*", text)
  {
    if text != "" {
      StarMatches(text[1..]);
    }
  }

  // ---- Operations on entries ----

  function Read<V>(entries: map<string, Entry<V>>, key: string, now: int, fails: bool): Option<V> {
    if !fails && key in entries && now < entries[key].expires then Some(entries[key].value) else None
  }

  function Write<V>(entries: map<string, Entry<V>>, key: string, value: V, now: int, ttl: int, fails: bool)
    : map<string, Entry<V>>
  {
    if fails then entries else entries[key := Entry(value, now + ttl)]
  }

  /** `kept` is what a failing delete leaves behind; it is empty when the delete succeeds. */
  function Delete<V>(entries: map<string, Entry<V>>, pattern: string, kept: set<string>): map<string, Entry<V>> {
    map k | k in entries && (!Matches(pattern, k) || k in kept) :: entries[k]
  }

  /** A written value is read until its time to live is over, by its own key alone; failures read nothing and write
      nothing. */
  lemma ReadAfterWrite<V>(
    entries: map<string, Entry<V>>, key: string, value: V, now: int, ttl: int, fails: bool, k: string, later: int)
    ensures var r := Read(Write(entries, key, value, now, ttl, fails), k, later, false);
      if !fails && k == key then r == (if later < now + ttl then Some(value) else None)
      else r == Read(entries, k, later, false)
    ensures Read(Write(entries, key, value, now, ttl, fails), k, later, true) == None
  {
  }

  class Redis<V> {
    var entries: map<string, Entry<V>>

    constructor ()
      ensures entries == map[]
    {
      entries := map[];
    }

    method Get(key: string, now: int, fails: bool) returns (r: Option<V>)
      ensures r == Read(entries, key, now, fails)
    {
      if fails || key !in entries || entries[key].expires <= now {
        return None;
      }
      r := Some(entries[key].value);
    }

    method SetEx(key: string, value: V, now: int, ttl: int, fails: bool)
      modifies this
      ensures entries == Write(old(entries), key, value, now, ttl, fails)
    {
      if !fails {
        entries := entries[key := Entry(value, now + ttl)];
      }
    }

    /** Scans the keys once and deletes those that match, unless the server fails to. */
    method DeletePattern(pattern: string, kept: set<string>)
      modifies this
      ensures entries == Delete(old(entries), pattern, kept)
    {
      var left := entries;
      var todo := entries.Keys;
      while todo != {}
        invariant todo <= entries.Keys && entries == old(entries)
        invariant left == map k | k in entries && (k in todo || !Matches(pattern, k) || k in kept) :: entries[k]
        decreases todo
      {
        var key :| key in todo;
        todo := todo - {key};
        if Matches(pattern, key) && key !in kept {
          left := left - {key};
        }
      }
      entries := left;
    }
  }

  // ---- The board's keys ----

  /** The type that a list key shows: the filter, or `all` where the filter is missing or empty. */
  function Shown(filter: Option<string>): string {
    if filter == None || filter == Some("") then "all" else filter.value
  }

  const LIST_PREFIX := "community:posts:"
  const DETAIL_PREFIX := "community:post:"

  function ListKey(page: int, size: int, filter: Option<string>): string {
    LIST_PREFIX + ("p" + IntText(page) + [':'] + ("s" + IntText(size) + [':'] + ("t" + Shown(filter))))
  }

  function DetailKey(p: int): string {
    DETAIL_PREFIX + IntText(p)
  }

  /** A list key tells page, size and shown type apart. */
  lemma ListKeyInjective(page: int, size: int, filter: Option<string>, page': int, size': int, filter': Option<string>)
    ensures ListKey(page, size, filter) == ListKey(page', size', filter')
      <==> page == page' && size == size' && Shown(filter) == Shown(filter')
  {
    if ListKey(page, size, filter) == ListKey(page', size', filter') {
      var x, x' := "t" + Shown(filter), "t" + Shown(filter');
      var y, y' := "s" + IntText(size) + [':'] + x, "s" + IntText(size') + [':'] + x';
      PrefixCancels(LIST_PREFIX, "p" + IntText(page) + [':'] + y, "p" + IntText(page') + [':'] + y');
      IntTextChars(page);
      IntTextChars(page');
      IntTextChars(size);
      IntTextChars(size');
      CutUnique("p" + IntText(page), y, "p" + IntText(page'), y', ':');
      CutUnique("s" + IntText(size), x, "s" + IntText(size'), x', ':');
      PrefixCancels("p", IntText(page), IntText(page'));
      PrefixCancels("s", IntText(size), IntText(size'));
      PrefixCancels("t", Shown(filter), Shown(filter'));
      IntTextInjective(page, page');
      IntTextInjective(size, size');
    }
  }

  lemma DetailKeyInjective(p: int, q: int)
    ensures DetailKey(p) == DetailKey(q) <==> p == q
  {
    if DetailKey(p) == DetailKey(q) {
      PrefixCancels(DETAIL_PREFIX, IntText(p), IntText(q));
      IntTextInjective(p, q);
    }
  }

  lemma KeysDisjoint(page: int, size: int, filter: Option<string>, p: int)
    ensures ListKey(page, size, filter) != DetailKey(p)
  {
    assert ListKey(page, size, filter)[14] == 's' && DetailKey(p)[14] == ':';
  }

  /** The list pattern matches every list key and no detail key; a detail pattern matches its own key alone. */
  lemma PatternsSelect(page: int, size: int, filter: Option<string>, p: int, q: int)
    ensures Matches(LIST_PREFIX + "*", ListKey(page, size, filter))
    ensures !Matches(LIST_PREFIX + "*", DetailKey(p))
    ensures Matches(DetailKey(p), DetailKey(q)) <==> p == q
    ensures !Matches(DetailKey(p), ListKey(page, size, filter))
  {
    MatchesPrefix(LIST_PREFIX, ListKey(page, size, filter));
    MatchesPrefix(LIST_PREFIX, DetailKey(p));
    assert LIST_PREFIX[14] == 's' && DetailKey(p)[14] == ':';
    IntTextChars(p);
    MatchesLiteral(DetailKey(p), DetailKey(q));
    MatchesLiteral(DetailKey(p), ListKey(page, size, filter));
    DetailKeyInjective(p, q);
    KeysDisjoint(page, size, filter, p);
  }
}
