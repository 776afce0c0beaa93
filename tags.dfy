/** The tag index: the file `<root>/<tag>/<articleId>` records that the article carries
    the tag. The index is the set of article markers in each tag directory. */
module TagIndex {

  import opened Results
  import opened JsValues

  /** Tag directory name to the article markers it holds. */
  type Index = map<string, set<string>>

  /** A single path segment that names an entry of its own: `join` keeps it as one level
      below its parent. */
  predicate IsName(s: string)
  {
    s != "" && '/' !in s && s != "." && s != ".."
  }

  /** An article id the index can hold: a name, or the empty id, which `join` drops and so
      addresses the tag directory itself. */
  predicate IsArticleId(s: string)
  {
    s == "" || IsName(s)
  }

  /** The articles that carry `tag`: the markers of its directory, none without one. */
  function ArticlesOf(index: Index, tag: string): set<string>
  {
    if tag in index then index[tag] else {}
  }

  /** The index after `addTag(tag, article)`: the tag directory exists and holds the marker. */
  function WithMarker(index: Index, tag: string, article: string): (r: Index)
    ensures ArticlesOf(r, tag) == ArticlesOf(index, tag) + {article}
    ensures forall t :: t != tag ==> ArticlesOf(r, t) == ArticlesOf(index, t)
    ensures r.Keys == index.Keys + {tag}
  {
    index[tag := ArticlesOf(index, tag) + {article}]
  }

  /** The index after `removeTag(tag, article)`: the marker is gone if it was there; the
      tag directory itself stays. */
  function WithoutMarker(index: Index, tag: string, article: string): (r: Index)
    ensures ArticlesOf(r, tag) == ArticlesOf(index, tag) - {article}
    ensures forall t :: t != tag ==> ArticlesOf(r, t) == ArticlesOf(index, t)
    ensures r.Keys == index.Keys
  {
    if tag in index then index[tag := index[tag] - {article}] else index
  }

  /** One step of the `reduce` in `getArticlesByTags`: the first tag's articles, then only
      the accumulated articles that also carry the next tag. */
  function Narrow(index: Index, acc: Option<set<string>>, tag: string): (r: set<string>)
    ensures forall x :: x in r <==> x in ArticlesOf(index, tag) && (acc.Some? ==> x in acc.value)
  {
    var articles := ArticlesOf(index, tag);
    match acc
    case None => articles
    case Some(kept) => set x | x in kept && x in articles
  }

  /** The `reduce` over `tags`, starting from `null`: nothing for no tags, otherwise the
      articles that carry every tag of the list. */
  function Reduce(index: Index, tags: seq<string>): (r: Option<set<string>>)
    ensures r.None? <==> tags == []
    ensures r.Some? ==>
              forall x :: x in r.value <==> forall i :: 0 <= i < |tags| ==> x in ArticlesOf(index, tags[i])
    decreases |tags|
  {
    if tags == [] then None
    else Some(Narrow(index, Reduce(index, tags[..|tags| - 1]), tags[|tags| - 1]))
  }

  /** `getArticlesByTags(tags)`: the articles that carry every tag of a non-empty list;
      the empty set for the empty list. */
  function ArticlesByTags(index: Index, tags: seq<string>): (r: set<string>)
    ensures forall x :: x in r <==> tags != [] && forall i :: 0 <= i < |tags| ==> x in ArticlesOf(index, tags[i])
  {
    match Reduce(index, tags)
    case None => {}
    case Some(articles) => articles
  }

  /** Adding a marker twice leaves the index as adding it once. */
  lemma AddIdempotent(index: Index, tag: string, article: string)
    ensures WithMarker(WithMarker(index, tag, article), tag, article) == WithMarker(index, tag, article)
  {
    var once := WithMarker(index, tag, article);
    assert ArticlesOf(once, tag) + {article} == ArticlesOf(once, tag);
  }

  /** Removing a marker that is not there changes nothing. */
  lemma RemoveAbsent(index: Index, tag: string, article: string)
    requires article !in ArticlesOf(index, tag)
    ensures WithoutMarker(index, tag, article) == index
  {
    if tag in index {
      assert index[tag] - {article} == index[tag];
    }
  }

  /** Removing a marker just added restores the articles of the tag. */
  lemma RemoveUndoesAdd(index: Index, tag: string, article: string)
    requires article !in ArticlesOf(index, tag)
    ensures forall t :: ArticlesOf(WithoutMarker(WithMarker(index, tag, article), tag, article), t)
                          == ArticlesOf(index, t)
  {
    forall t
      ensures ArticlesOf(WithoutMarker(WithMarker(index, tag, article), tag, article), t)
                == ArticlesOf(index, t)
    {
      if t == tag {
        assert ArticlesOf(index, tag) + {article} - {article} == ArticlesOf(index, tag);
      }
    }
  }

  /** For a single tag, `getArticlesByTags` is that tag's articles. */
  lemma ByOneTag(index: Index, tag: string)
    ensures ArticlesByTags(index, [tag]) == ArticlesOf(index, tag)
  {
    forall x | x in ArticlesOf(index, tag)
      ensures x in ArticlesByTags(index, [tag])
    {
      assert forall i :: 0 <= i < |[tag]| ==> [tag][i] == tag;
    }
  }

  /** Only the tags a list names matter, not their order or repetition. */
  lemma ByTagsSameTags(index: Index, tags: seq<string>, others: seq<string>)
    requires forall t :: t in tags <==> t in others
    ensures ArticlesByTags(index, tags) == ArticlesByTags(index, others)
  {
    if tags != [] {
      assert tags[0] in others;
    }
    if others != [] {
      assert others[0] in tags;
    }
    forall x | x in ArticlesByTags(index, tags)
      ensures x in ArticlesByTags(index, others)
    {
      forall i | 0 <= i < |others|
        ensures x in ArticlesOf(index, others[i])
      {
        assert others[i] in tags;
        var j :| 0 <= j < |tags| && tags[j] == others[i];
      }
    }
    forall x | x in ArticlesByTags(index, others)
      ensures x in ArticlesByTags(index, tags)
    {
      forall i | 0 <= i < |tags|
        ensures x in ArticlesOf(index, tags[i])
      {
        assert tags[i] in others;
        var j :| 0 <= j < |others| && others[j] == tags[i];
      }
    }
  }

  /** Adding a marker never takes an article out of any query's answer. */
  lemma AddGrowsByTags(index: Index, tag: string, article: string, tags: seq<string>)
    ensures ArticlesByTags(index, tags) <= ArticlesByTags(WithMarker(index, tag, article), tags)
  {
  }

  /** The example of the tag index's own documentation: with "article1" tagged news and
      tech and "article2" tagged tech, the articles tagged both news and tech are
      just "article1". */
  lemma DocumentedExample()
    ensures var index := WithMarker(WithMarker(WithMarker(map[], "news", "article1"),
                                               "tech", "article1"), "tech", "article2");
            ArticlesByTags(index, ["news", "tech"]) == {"article1"}
  {
    var index := WithMarker(WithMarker(WithMarker(map[], "news", "article1"),
                                       "tech", "article1"), "tech", "article2");
    assert ArticlesOf(index, "news") == {"article1"};
    assert ArticlesOf(index, "tech") == {"article1", "article2"};
    var tags := ["news", "tech"];
    assert tags[0] == "news" && tags[1] == "tech";
    assert "article1" in ArticlesByTags(index, tags);
  }

  class Tags {
    /** `config.db`: the directory holding one directory per tag. */
    const root: Value
    /** The tag directories under the root and their markers. */
    var index: Index

    constructor (root: Value, found: Index)
      ensures this.root == root && index == found
    {
      this.root := root;
      index := found;
    }

    /** `new Tags(config)` over the tag directories as found: throws unless `config.db`
        is set. */
    static method Open(config: Option<Record>, found: Index) returns (r: Result<Tags>)
      ensures config.None? || "db" !in config.value || !Truthy(config.value["db"]) ==>
                r == Failure(Raised("Config with 'db' property required"))
      ensures config.Some? && "db" in config.value && Truthy(config.value["db"]) ==>
                r.Success? && fresh(r.value) && r.value.root == config.value["db"] && r.value.index == found
    {
      if config.None? || "db" !in config.value || !Truthy(config.value["db"]) {
        return Failure(Raised("Config with 'db' property required"));
      }
      var tags := new Tags(config.value["db"], found);
      r := Success(tags);
    }

    /** `addTag(tag, articleId)`: create the tag directory if needed and write the marker.
        With an empty id the marker path is the directory itself, which cannot be written
        as a file. */
    method AddTag(tag: string, articleId: string) returns (r: Option<Error>)
      requires IsName(tag) && IsArticleId(articleId)
      modifies this
      ensures !root.Str? ==> r == Some(NotAString("root")) && index == old(index)
      ensures root.Str? && articleId == "" ==>
                r == Some(Refused("EISDIR")) && index == old(index)[tag := ArticlesOf(old(index), tag)]
      ensures root.Str? && articleId != "" ==> r.None? && index == WithMarker(old(index), tag, articleId)
    {
      if !root.Str? {
        return Some(NotAString("root"));
      }
      if tag !in index {
        index := index[tag := {}];
      }
      if articleId == "" {
        return Some(Refused("EISDIR"));
      }
      index := index[tag := index[tag] + {articleId}];
      r := None;
    }

    /** `removeTag(tag, articleId)`: delete the marker if it exists. With an empty id the
        path is the tag directory, which `unlink` refuses. */
    method RemoveTag(tag: string, articleId: string) returns (r: Option<Error>)
      requires IsName(tag) && IsArticleId(articleId)
      modifies this
      ensures index == if root.Str? && articleId != "" then WithoutMarker(old(index), tag, articleId)
                       else old(index)
      ensures !root.Str? ==> r == Some(NotAString("root"))
      ensures root.Str? && articleId == "" ==> r == if tag in index then Some(Refused("EISDIR")) else None
      ensures root.Str? && articleId != "" ==> r.None?
    {
      if !root.Str? {
        return Some(NotAString("root"));
      }
      if articleId == "" {
        return if tag in index then Some(Refused("EISDIR")) else None;
      }
      if tag in index && articleId in index[tag] {
        index := index[tag := index[tag] - {articleId}];
      } else {
        RemoveAbsent(index, tag, articleId);
      }
      r := None;
    }

    /** `getArticlesForTag(tag)`: the markers of the tag directory, each once, in the
        order the listing gives them; nothing when the directory is missing. */
    method GetArticlesForTag(tag: string) returns (r: Result<seq<string>>)
      requires IsName(tag)
      ensures !root.Str? ==> r == Failure(NotAString("root"))
      ensures root.Str? ==> r.Success?
      ensures r.Success? ==> forall i, j :: 0 <= i < j < |r.value| ==> r.value[i] != r.value[j]
      ensures r.Success? ==> forall x :: x in r.value <==> x in ArticlesOf(index, tag)
    {
      if !root.Str? {
        return Failure(NotAString("root"));
      }
      var articles: seq<string> := [];
      if tag in index {
        var remaining := index[tag];
        while remaining != {}
          invariant forall i, j :: 0 <= i < j < |articles| ==> articles[i] != articles[j]
          invariant forall x :: x in articles ==> x !in remaining
          invariant forall x :: x in articles <==> x in index[tag] && x !in remaining
          invariant remaining <= index[tag]
          decreases remaining
        {
          var x :| x in remaining;
          articles := articles + [x];
          remaining := remaining - {x};
        }
      }
      r := Success(articles);
    }

    /** `getArticlesByTags(tags)`: fold the tags' article sets with `Narrow`, starting from
        nothing; the empty set when the fold ends with nothing. */
    method GetArticlesByTags(tags: seq<string>) returns (r: Result<set<string>>)
      requires forall i :: 0 <= i < |tags| ==> IsName(tags[i])
      ensures tags == [] ==> r == Success({})
      ensures tags != [] && !root.Str? ==> r == Failure(NotAString("root"))
      ensures tags != [] && root.Str? ==> r == Success(ArticlesByTags(index, tags))
    {
      var acc: Option<set<string>> := None;
      var i := 0;
      while i < |tags|
        invariant 0 <= i <= |tags|
        invariant acc == Reduce(index, tags[..i])
        invariant i > 0 ==> root.Str?
      {
        var listed := GetArticlesForTag(tags[i]);
        if listed.Failure? {
          return Failure(listed.error);
        }
        var articles := set x | x in listed.value;
        assert articles == ArticlesOf(index, tags[i]);
        assert tags[..i + 1][..i] == tags[..i];
        acc := Some(match acc
                    case None => articles
                    case Some(kept) => set x | x in kept && x in articles);
        i := i + 1;
      }
      assert tags[..i] == tags;
      r := Success(if acc.None? then {} else acc.value);
    }
  }
}
