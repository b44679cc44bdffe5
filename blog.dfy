/** The read-only blog of the second backend: a constant list of posts, listed without their
    bodies and looked up by slug. */
module BlogApi {
  import opened Http
  import opened Seqs

  datatype PostFull = PostFull(slug: string, title: string, content: string, author: string, date: string, category: string)

  /** The `PostBase` response model: a post without its content. */
  datatype PostBase = PostBase(slug: string, title: string, author: string, date: string, category: string)

  /** `fake_posts_db`; being a constant, no handler can change it. */
  const Posts: seq<PostFull> := [
    PostFull("first-post", "Мой первый пост",
      "# Введение\nЭто содержимое первого поста в Markdown формате.",
      "Нурай", "2025-06-25", "private"),
    PostFull("fastapi-and-nextjs", "FastAPI + Next.js = ❤️",
      "## Почему это круто\nFastAPI и Next.js — отличный стек для современных веб-приложений.",
      "Нурай", "2025-06-24", "Work"),
    PostFull("why-i-love-python", "Почему я люблю Python",
      "### Простота и мощь\nPython — простой и мощный язык для всех задач.",
      "Нурай", "2025-06-23", "Public")
  ]

  function Summary(p: PostFull): PostBase {
    PostBase(p.slug, p.title, p.author, p.date, p.category)
  }

  function Slugs(posts: seq<PostFull>): (slugs: seq<string>)
    ensures |slugs| == |posts|
    ensures forall i :: 0 <= i < |posts| ==> slugs[i] == posts[i].slug
  {
    seq(|posts|, i requires 0 <= i < |posts| => posts[i].slug)
  }

  /** get_all_posts: every post in stored order, serialised through `PostBase`. */
  function ListPosts(posts: seq<PostFull>): (r: seq<PostBase>)
    ensures |r| == |posts|
    ensures forall i :: 0 <= i < |posts| ==>
      r[i].slug == posts[i].slug && r[i].title == posts[i].title && r[i].author == posts[i].author
      && r[i].date == posts[i].date && r[i].category == posts[i].category
  {
    seq(|posts|, i requires 0 <= i < |posts| => Summary(posts[i]))
  }

  /** get_post_by_slug: the loop returns the first post with the slug, or raises 404. */
  function PostBySlug(posts: seq<PostFull>, slug: string): (r: Result<PostFull>)
    ensures r.Err? <==> forall i :: 0 <= i < |posts| ==> posts[i].slug != slug
    ensures r.Err? ==> r.status == NotFound
    ensures r.Ok? ==> exists i :: 0 <= i < |posts| && posts[i] == r.value
                        && r.value.slug == slug && forall j :: 0 <= j < i ==> posts[j].slug != slug
  {
    match IndexOf(Slugs(posts), slug)
    case None => Err(NotFound)
    case Some(i) => Ok(posts[i])
  }

  /** The listed summaries lead to the full posts: every listed slug is found, and it is found
      at its first listing. */
  lemma ListedSlugsResolve(posts: seq<PostFull>, k: nat)
    requires k < |posts|
    ensures PostBySlug(posts, ListPosts(posts)[k].slug).Ok?
    ensures Summary(PostBySlug(posts, ListPosts(posts)[k].slug).value) == ListPosts(posts)[IndexOf(Slugs(posts), posts[k].slug).value]
  {
    assert Slugs(posts)[k] == posts[k].slug;
  }

  /** On the shipped posts: each slug leads to its post and an unknown slug gives 404. */
  lemma ShippedPosts()
    ensures PostBySlug(Posts, "first-post") == Ok(Posts[0])
    ensures PostBySlug(Posts, "why-i-love-python") == Ok(Posts[2])
    ensures PostBySlug(Posts, "no-such-post") == Err(NotFound)
    ensures ListPosts(Posts)[1].title == "FastAPI + Next.js = ❤️"
  {
    var slugs := Slugs(Posts);
    assert slugs == ["first-post", "fastapi-and-nextjs", "why-i-love-python"];
    assert "why-i-love-python"[0] != "first-post"[0] && "why-i-love-python"[0] != "fastapi-and-nextjs"[0];
    assert IndexOf(slugs, "why-i-love-python") == Some(2);
    assert "no-such-post"[0] != slugs[0][0] && "no-such-post"[0] != slugs[1][0] && "no-such-post"[0] != slugs[2][0];
    assert "no-such-post" !in slugs;
  }
}
