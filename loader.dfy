/**
 * The works data cache of src/features/works/loader.js: `loadWorks` fetches the data file
 * once and keeps it in the module variable `_data`; `getLang` and `getList` look lists up in
 * it with fallbacks, so that a caller always gets a list.
 *
 * The fetch and the JSON parse are not modelled: their outcome is a parameter.
 */
module WorksLoader {
  import opened Wrappers

  /** One work: its image, the image's `alt` text and the lines of its description. */
  datatype Work = Work(src: string, alt: string, desc: seq<string>)

  /** The lists of one language, by category (`game`, `tool`, `other`). */
  type LangData = map<string, seq<Work>>

  /** The parsed data file, by language. */
  type Data = map<string, LangData>

  /**
   * What the fetch gives: a response that is not OK, an OK response whose body does not
   * parse, or the parsed value (`None` for a falsy JSON value such as `null`).
   */
  datatype Fetched = NotOk | BadJson | Parsed(json: Option<Data>)

  /** `{ game: [], tool: [], other: [] }`. */
  const EmptyLang: LangData := map["game" := [], "tool" := [], "other" := []]

  /** The data stored when loading fails: `{ ja: { game: [], tool: [], other: [] } }`. */
  const Fallback: Data := map["ja" := EmptyLang]

  /** The value `loadWorks` stores in `_data` for a fetch outcome. */
  function Outcome(f: Fetched): (r: Option<Data>)
    ensures f.NotOk? || f.BadJson? ==> r == Some(Fallback)
    ensures f.Parsed? ==> r == f.json
  {
    match f
    case NotOk => Some(Fallback)
    case BadJson => Some(Fallback)
    case Parsed(json) => json
  }

  /** `getLang`: the requested language, else Japanese, else empty lists; empty lists before loading. */
  function GetLang(data: Option<Data>, lang: string): LangData
  {
    match data
    case None => EmptyLang
    case Some(d) =>
      if lang in d then d[lang] else if "ja" in d then d["ja"] else EmptyLang
  }

  /** `getList`: the category's list in `getLang(lang)`, or the empty list. */
  function GetList(data: Option<Data>, lang: string, category: string): seq<Work>
  {
    var l := GetLang(data, lang);
    if category in l then l[category] else []
  }

  /** Before loading, and after a failed load, every list is empty. */
  lemma NothingBeforeLoad(lang: string, category: string)
    ensures GetList(None, lang, category) == []
    ensures GetList(Outcome(NotOk), lang, category) == []
    ensures GetList(Outcome(BadJson), lang, category) == []
  {
  }

  /** A language and category present in the data give exactly their list. */
  lemma ListFound(d: Data, lang: string, category: string)
    requires lang in d && category in d[lang]
    ensures GetList(Some(d), lang, category) == d[lang][category]
  {
  }

  /** A language missing from the data reads as Japanese when that is present. */
  lemma MissingLangReadsJapanese(d: Data, lang: string, category: string)
    requires lang !in d && "ja" in d
    ensures GetList(Some(d), lang, category) == GetList(Some(d), "ja", category)
  {
  }

  /** The module variable `_data`. */
  class Loader {
    var data: Option<Data>

    constructor ()
      ensures data == None
    {
      data := None;
    }

    /**
     * `loadWorks`: returns at once, without fetching, once data is stored; otherwise stores
     * the fetched data, or the fallback when the response is not OK or does not parse.
     */
    method LoadWorks(fetched: Fetched) returns (didFetch: bool)
      modifies this
      ensures didFetch <==> old(data).None?
      ensures old(data).Some? ==> data == old(data)
      ensures old(data).None? ==> data == Outcome(fetched)
    {
      if data.Some? {
        return false;
      }
      didFetch := true;
      match fetched
      case NotOk =>
        data := Some(Fallback);
      case BadJson =>
        data := Some(Fallback);
      case Parsed(json) =>
        data := json;
    }
  }
}
