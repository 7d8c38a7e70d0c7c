/**
 * The post service (api/services/post.py): posts by owner, cascading post
 * delete, kudos add/list/delete, and the friend feed (filter by owner set,
 * newest first, then OFFSET/LIMIT).
 */
module PostService {
  import opened Relational
  import opened Tables

  function HasPostId(postId: int): Post -> bool
  {
    (p: Post) => p.id == postId
  }

  function OnPost(postId: int): Kudos -> bool
  {
    (k: Kudos) => k.postId == postId
  }

  function HasKudosId(kudosId: int): Kudos -> bool
  {
    (k: Kudos) => k.id == kudosId
  }

  function GivenBy(postId: int, userId: int): Kudos -> bool
  {
    (k: Kudos) => k.postId == postId && k.userId == userId
  }

  /** get_posts_by_user_id: exactly the user's posts; NotFound when there are none. */
  function GetPostsByUserId(posts: seq<Post>, userId: int): (r: Result<seq<Post>>)
    ensures r.Ok? ==> forall p :: p in r.value <==> p in posts && p.userId == userId
    ensures r.Err? <==> forall p :: p in posts ==> p.userId != userId
    ensures r.Err? ==> r.error == NotFound
  {
    var rows := Filter(posts, PostedBy(userId));
    if rows == [] then Err(NotFound) else assert rows[0] in rows; Ok(rows)
  }

  /** delete_post: NotFound (and no change) for an unknown id; otherwise the
      post goes, and its kudos with it. */
  method DeletePost(db: Database, postId: int) returns (r: Result<Post>)
    requires db.Valid()
    modifies db`posts, db`kudos
    ensures db.Valid()
    ensures r.Err? <==> forall p :: p in old(db.posts) ==> p.id != postId
    ensures r.Err? ==> r.error == NotFound && unchanged(db)
    ensures r.Ok? ==> r.value in old(db.posts) && r.value.id == postId
    ensures r.Ok? ==> |db.posts| == |old(db.posts)| - 1
    ensures r.Ok? ==> db.posts == DeleteWhere(old(db.posts), HasPostId(postId))
    ensures r.Ok? ==> db.kudos == DeleteWhere(old(db.kudos), OnPost(postId))
  {
    var i := Find(db.posts, HasPostId(postId));
    if i < 0 {
      return Err(NotFound);
    }
    r := Ok(db.posts[i]);
    DeleteByKey(db.posts, PostId, HasPostId(postId), i);
    db.DeleteKudosWhere(OnPost(postId));
    db.DeletePostsWhere(HasPostId(postId));
  }

  /** add_kudos: a new row with the next id of the sequence; nothing is
      checked, so a user may give a post several kudos. */
  method AddKudos(db: Database, postId: int, userId: int, now: Time) returns (k: Kudos)
    requires db.Valid()
    modifies db`kudos, db`nextKudosId
    ensures db.Valid()
    ensures k == Kudos(old(db.nextKudosId), postId, userId, now)
    ensures db.kudos == old(db.kudos) + [k]
    ensures db.nextKudosId == old(db.nextKudosId) + 1
  {
    k := Kudos(db.nextKudosId, postId, userId, now);
    AppendKeepsUnique(db.kudos, KudosId, k);
    db.kudos := db.kudos + [k];
    db.nextKudosId := db.nextKudosId + 1;
  }

  /** get_kudos_by_post_id: exactly the post's kudos; NotFound when there are none. */
  function GetKudosByPostId(kudos: seq<Kudos>, postId: int): (r: Result<seq<Kudos>>)
    ensures r.Ok? ==> forall k :: k in r.value <==> k in kudos && k.postId == postId
    ensures r.Err? <==> forall k :: k in kudos ==> k.postId != postId
    ensures r.Err? ==> r.error == NotFound
  {
    var rows := Filter(kudos, OnPost(postId));
    if rows == [] then Err(NotFound) else assert rows[0] in rows; Ok(rows)
  }

  /** delete_kudos: the first kudos of this user on this post (in storage
      order) is removed and returned, and every other row stays; NotFound,
      and no change, when there is none. */
  method DeleteKudos(db: Database, postId: int, userId: int) returns (r: Result<Kudos>)
    requires db.Valid()
    modifies db`kudos
    ensures db.Valid()
    ensures r.Err? <==> forall k :: k in old(db.kudos) ==> !(k.postId == postId && k.userId == userId)
    ensures r.Err? ==> r.error == NotFound && db.kudos == old(db.kudos)
    ensures r.Ok? ==> r.value in old(db.kudos) && r.value.postId == postId && r.value.userId == userId
    ensures r.Ok? ==> var i := Find(old(db.kudos), GivenBy(postId, userId));
                      0 <= i && r.value == old(db.kudos)[i] && db.kudos == old(db.kudos)[..i] + old(db.kudos)[i + 1..]
    ensures r.Ok? ==> multiset(db.kudos) + multiset{r.value} == multiset(old(db.kudos))
  {
    var i := Find(db.kudos, GivenBy(postId, userId));
    if i < 0 {
      return Err(NotFound);
    }
    var k := db.kudos[i];
    assert db.kudos == db.kudos[..i] + [k] + db.kudos[i + 1..];
    DeleteByKey(db.kudos, KudosId, HasKudosId(k.id), i);
    db.DeleteKudosWhere(HasKudosId(k.id));
    r := Ok(k);
  }

  // ---------------------------------------------------------------------------
  // get_friends_posts: WHERE user_id IN ids ORDER BY time_created DESC, then
  // SQL's OFFSET before LIMIT.

  /** Non-increasing creation time; ties in any order. */
  ghost predicate NewestFirst(s: seq<Post>)
  {
    forall i, j :: 0 <= i < j < |s| ==> s[i].timeCreated >= s[j].timeCreated
  }

  /** A post no older than any of a newest-first sequence can lead it. */
  lemma ConsNewest(x: Post, s: seq<Post>)
    requires NewestFirst(s)
    requires forall y :: y in s ==> y.timeCreated <= x.timeCreated
    ensures NewestFirst([x] + s)
  {
    var r := [x] + s;
    forall i, j | 0 <= i < j < |r| ensures r[i].timeCreated >= r[j].timeCreated {
      if i == 0 {
        assert r[j] == s[j - 1];
      } else {
        assert r[i] == s[i - 1] && r[j] == s[j - 1];
      }
    }
  }

  /** A post no newer than the head of s leaves s's order intact. */
  lemma LeadsNewest(p: Post, s: seq<Post>)
    requires NewestFirst(s)
    requires s == [] || s[0].timeCreated <= p.timeCreated
    ensures NewestFirst([p] + s)
  {
    forall y | y in s ensures y.timeCreated <= p.timeCreated {
      var k :| 0 <= k < |s| && s[k] == y;
      assert k == 0 || s[0].timeCreated >= s[k].timeCreated;
    }
    ConsNewest(p, s);
  }

  /** Keeping the head of s in front of the insertion into its tail. */
  lemma KeepsHead(p: Post, s: seq<Post>, rest: seq<Post>)
    requires NewestFirst(s) && s != [] && p.timeCreated < s[0].timeCreated
    requires NewestFirst(rest) && multiset(rest) == multiset(s[1..]) + multiset{p}
    ensures NewestFirst([s[0]] + rest)
    ensures multiset([s[0]] + rest) == multiset(s) + multiset{p}
  {
    forall y | y in rest ensures y.timeCreated <= s[0].timeCreated {
      assert y in multiset(rest);
      if y != p {
        var k :| 0 <= k < |s[1..]| && s[1..][k] == y;
        assert s[k + 1] == y;
      }
    }
    ConsNewest(s[0], rest);
    assert s == [s[0]] + s[1..];
  }

  function InsertByNewest(p: Post, s: seq<Post>): (r: seq<Post>)
    requires NewestFirst(s)
    ensures NewestFirst(r)
    ensures multiset(r) == multiset(s) + multiset{p}
  {
    if s == [] || s[0].timeCreated <= p.timeCreated then
      LeadsNewest(p, s);
      [p] + s
    else
      var rest := InsertByNewest(p, s[1..]);
      KeepsHead(p, s, rest);
      [s[0]] + rest
  }

  /** ORDER BY time_created DESC: a newest-first permutation of s. */
  function SortByNewest(s: seq<Post>): (r: seq<Post>)
    ensures NewestFirst(r)
    ensures multiset(r) == multiset(s)
  {
    if s == [] then []
    else
      assert s == [s[0]] + s[1..];
      InsertByNewest(s[0], SortByNewest(s[1..]))
  }

  function OwnedByAny(userIds: seq<int>): Post -> bool
  {
    (p: Post) => p.userId in userIds
  }

  /** A window of a newest-first sequence is newest first. */
  lemma WindowKeepsOrder(s: seq<Post>, offset: nat, limit: nat)
    requires NewestFirst(s)
    ensures NewestFirst(Window(s, offset, limit))
  {
    var w := Window(s, offset, limit);
    forall i, j | 0 <= i < j < |w| ensures w[i].timeCreated >= w[j].timeCreated {
      assert w[i] == s[offset + i] && w[j] == s[offset + j];
    }
  }

  /** All the posts of the given owners, newest first. */
  function Feed(posts: seq<Post>, userIds: seq<int>): (feed: seq<Post>)
    ensures NewestFirst(feed)
    ensures multiset(feed) == multiset(Filter(posts, OwnedByAny(userIds)))
    ensures |feed| == |Filter(posts, OwnedByAny(userIds))|
    ensures forall p :: p in feed ==> p in posts && p.userId in userIds
  {
    var matching := Filter(posts, OwnedByAny(userIds));
    var feed := SortByNewest(matching);
    assert |multiset(feed)| == |multiset(matching)|;
    assert forall p :: p in feed ==> p in multiset(matching);
    feed
  }

  /** get_friends_posts: one page of the friends' posts, newest first;
      NotFound when the page is empty. */
  function GetFriendsPosts(posts: seq<Post>, userIds: seq<int>, limit: nat, offset: nat): (r: Result<seq<Post>>)
    ensures r.Ok? ==> 0 < |r.value| <= limit
    ensures r.Ok? ==> forall p :: p in r.value ==> p in posts && p.userId in userIds
    ensures r.Ok? ==> NewestFirst(r.value)
    ensures r.Ok? ==> exists feed :: NewestFirst(feed)
                                  && multiset(feed) == multiset(Filter(posts, OwnedByAny(userIds)))
                                  && r.value == Window(feed, offset, limit)
    ensures r.Err? <==> limit == 0 || offset >= |Filter(posts, OwnedByAny(userIds))|
    ensures r.Err? ==> r.error == NotFound
  {
    var feed := Feed(posts, userIds);
    var page := Window(feed, offset, limit);
    if page == [] then Err(NotFound)
    else
      WindowKeepsOrder(feed, offset, limit);
      assert forall p :: p in page ==> p in feed by {
        forall p | p in page ensures p in feed {
          var i :| 0 <= i < |page| && page[i] == p;
          assert feed[offset + i] in feed;
        }
      }
      Ok(page)
  }

  /** The first page opens with a newest post among all the friends' posts. */
  lemma FirstPageStartsNewest(posts: seq<Post>, userIds: seq<int>, limit: nat, q: Post)
    requires GetFriendsPosts(posts, userIds, limit, 0).Ok?
    requires q in posts && q.userId in userIds
    ensures GetFriendsPosts(posts, userIds, limit, 0).value[0].timeCreated >= q.timeCreated
  {
    var page := GetFriendsPosts(posts, userIds, limit, 0).value;
    var feed: seq<Post> :| NewestFirst(feed)
                && multiset(feed) == multiset(Filter(posts, OwnedByAny(userIds)))
                && page == Window(feed, 0, limit);
    assert q in multiset(feed);
    var j :| 0 <= j < |feed| && feed[j] == q;
    assert page[0] == feed[0];
    if j > 0 {
      assert feed[0].timeCreated >= feed[j].timeCreated;
    }
  }

  /** Posts by friends 2 and 3 and a newer one by stranger 9: with pages of
      one post, the first page holds the newer friend post ... */
  lemma FirstPageExample(older: Post, stranger: Post, newer: Post)
    requires older.userId == 2 && stranger.userId == 9 && newer.userId == 3
    requires older.timeCreated < newer.timeCreated < stranger.timeCreated
    ensures GetFriendsPosts([older, stranger, newer], [2, 3], 1, 0) == Ok([newer])
  {
    FeedExample(older, stranger, newer);
    var feed := Feed([older, stranger, newer], [2, 3]);
    assert Window(feed, 0, 1) == [newer];
  }

  /** ... the second page the older one, and the stranger's post is on neither. */
  lemma SecondPageExample(older: Post, stranger: Post, newer: Post)
    requires older.userId == 2 && stranger.userId == 9 && newer.userId == 3
    requires older.timeCreated < newer.timeCreated < stranger.timeCreated
    ensures GetFriendsPosts([older, stranger, newer], [2, 3], 1, 1) == Ok([older])
  {
    FeedExample(older, stranger, newer);
    var feed := Feed([older, stranger, newer], [2, 3]);
    assert feed[1..2] == [older];
    assert Window(feed, 1, 1) == [older];
  }

  lemma FeedExample(older: Post, stranger: Post, newer: Post)
    requires older.userId == 2 && stranger.userId == 9 && newer.userId == 3
    requires older.timeCreated < newer.timeCreated
    ensures Feed([older, stranger, newer], [2, 3]) == [newer, older]
  {
    FeedExampleFilter(older, stranger, newer);
    FeedExampleSort(older, newer);
  }

  lemma FeedExampleFilter(older: Post, stranger: Post, newer: Post)
    requires older.userId == 2 && stranger.userId == 9 && newer.userId == 3
    ensures Filter([older, stranger, newer], OwnedByAny([2, 3])) == [older, newer]
  {
    var posts, p := [older, stranger, newer], OwnedByAny([2, 3]);
    assert posts[1..] == [stranger, newer] && posts[1..][1..] == [newer] && posts[1..][1..][1..] == [];
    assert Filter(posts[1..][1..], p) == [newer];
    assert Filter(posts[1..], p) == [newer];
  }

  lemma FeedExampleSort(older: Post, newer: Post)
    requires older.timeCreated < newer.timeCreated
    ensures SortByNewest([older, newer]) == [newer, older]
  {
    assert [older, newer][1..] == [newer];
    assert [newer][1..] == [];
    assert SortByNewest([newer]) == [newer];
    assert InsertByNewest(older, [newer]) == [newer] + InsertByNewest(older, []);
  }
}
