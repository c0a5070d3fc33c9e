/** The docs topics and the page title for a topic slug. */
module Topics {
  import opened Wrappers

  datatype Topic = Topic(slug: string, title: string)

  const AllTopics: seq<Topic> := [
    Topic("svelte", "Svelte"), Topic("kit", "SvelteKit"), Topic("cli", "Svelte CLI"), Topic("mcp", "Svelte MCP")
  ]

  const DefaultTitle: string := "Svelte"

  /** `topics.find((t) => t.slug === slug)`. */
  function FindTopic(topics: seq<Topic>, slug: string): (r: Option<Topic>)
    ensures r.None? <==> forall i :: 0 <= i < |topics| ==> topics[i].slug != slug
    ensures r.Some? ==> exists i :: 0 <= i < |topics| && topics[i] == r.value && r.value.slug == slug
  {
    if topics == [] then None
    else if topics[0].slug == slug then Some(topics[0])
    else
      var r := FindTopic(topics[1..], slug);
      assert forall i :: 1 <= i < |topics| ==> topics[i] == topics[1..][i - 1];
      assert r.Some? ==> exists i :: 1 <= i < |topics| && topics[i] == r.value by {
        if r.Some? {
          var i :| 0 <= i < |topics[1..]| && topics[1..][i] == r.value;
          assert topics[i + 1] == r.value;
        }
      }
      r
  }

  /** `get_topic_title`: the title of the topic with that slug, `Svelte` for a missing, empty or unknown slug. */
  function TopicTitle(slug: Option<string>): (r: string)
    ensures slug.None? || slug == Some("") ==> r == DefaultTitle
    ensures slug.Some? && slug.value != "" && FindTopic(AllTopics, slug.value).None? ==> r == DefaultTitle
    ensures slug.Some? && slug.value != "" && FindTopic(AllTopics, slug.value).Some? ==>
      r == FindTopic(AllTopics, slug.value).value.title
  {
    if slug.None? || slug.value == "" then DefaultTitle
    else match FindTopic(AllTopics, slug.value)
      case None => DefaultTitle
      case Some(t) => t.title
  }

  /** The slugs of the topics are distinct, so each slug names one topic. */
  lemma SlugsDistinct()
    ensures forall i, j :: 0 <= i < j < |AllTopics| ==> AllTopics[i].slug != AllTopics[j].slug
  {
  }

  /** Every topic's slug gives that topic's title, and any other slug gives the default. */
  lemma TitleOfEachTopic(slug: string)
    ensures forall i :: 0 <= i < |AllTopics| ==> TopicTitle(Some(AllTopics[i].slug)) == AllTopics[i].title
    ensures (forall i :: 0 <= i < |AllTopics| ==> AllTopics[i].slug != slug) ==> TopicTitle(Some(slug)) == DefaultTitle
  {
    forall i | 0 <= i < |AllTopics| ensures TopicTitle(Some(AllTopics[i].slug)) == AllTopics[i].title {
      var t := FindTopic(AllTopics, AllTopics[i].slug);
      var j :| 0 <= j < |AllTopics| && AllTopics[j] == t.value && t.value.slug == AllTopics[i].slug;
      SlugsDistinct();
      assert j == i;
    }
  }
}
