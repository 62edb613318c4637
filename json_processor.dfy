/** The JSON processor Lambda: turns the sitemap of a project into the list of pages, each with its
    id, title and section names, and reports a missing project or sitemap by an error code. The
    log lines and the message texts are not modelled; an exception raised while reading the
    input is modelled as the INTERNAL_ERROR outcome it is caught as. */
module JsonProcessor {
  import opened Common
  import opened Json

  datatype ErrorCode = MissingProjectData | MissingSitemap | InternalError

  /** One entry of `pages`: `{"pageId": ..., "pageTitle": ..., "sections": [...]}`. */
  datatype PageEntry = PageEntry(pageId: Value, pageTitle: Value, sections: seq<Value>)

  /** The final payload `{"projectId": ..., "pages": ..., "error": ...}`; `error` is `None` when the
      payload carries `null`. */
  datatype Output = Output(projectId: Value, pages: seq<PageEntry>, error: Option<ErrorCode>)

  // ---------------------------------------------------------------------------------------------
  // Sections

  /** `[v for v in vs if v]`. */
  function TruthyOnly(vs: seq<Value>): (r: seq<Value>)
    ensures |r| <= |vs|
  {
    if vs == [] then []
    else
      var n := |vs| - 1;
      TruthyOnly(vs[..n]) + (if Truthy(vs[n]) then [vs[n]] else [])
  }

  /** The filter keeps exactly the truthy values. */
  lemma {:induction false} TruthyOnlyMembers(vs: seq<Value>)
    ensures forall v | v in TruthyOnly(vs) :: Truthy(v) && v in vs
    ensures forall v | v in vs && Truthy(v) :: v in TruthyOnly(vs)
  {
    if vs != [] {
      var n := |vs| - 1;
      TruthyOnlyMembers(vs[..n]);
      assert vs == vs[..n] + [vs[n]];
    }
  }

  /** Keeping the truthy values preserves their order: the filter distributes over
      concatenation. */
  lemma {:induction false} TruthyOnlyAppend(a: seq<Value>, b: seq<Value>)
    ensures TruthyOnly(a + b) == TruthyOnly(a) + TruthyOnly(b)
  {
    if b == [] {
      assert a + b == a;
    } else {
      var n := |b| - 1;
      var ab := a + b;
      assert ab[..|ab| - 1] == a + b[..n];
      assert ab[|ab| - 1] == b[n];
      TruthyOnlyAppend(a, b[..n]);
      assert TruthyOnly(ab) == TruthyOnly(a + b[..n]) + (if Truthy(b[n]) then [b[n]] else []);
    }
  }

  /** A list of truthy values is kept whole. */
  lemma {:induction false} TruthyOnlyAllTruthy(vs: seq<Value>)
    requires forall i | 0 <= i < |vs| :: Truthy(vs[i])
    ensures TruthyOnly(vs) == vs
  {
    if vs != [] {
      TruthyOnlyAllTruthy(vs[..|vs| - 1]);
    }
  }

  /** `section.get('name')` on a section that is a dict. */
  function NameOf(section: Value): Value {
    if section.JObj? then Get(section.fields, "name") else JNull
  }

  function NamesOf(sections: seq<Value>): (r: seq<Value>)
    ensures |r| == |sections| && forall i | 0 <= i < |sections| :: r[i] == NameOf(sections[i])
  {
    seq(|sections|, i requires 0 <= i < |sections| => NameOf(sections[i]))
  }

  /** The section names of a page: a `sections` value that is not a list gives no names, a list
      holding a section that is not a dict raises (`None`), and otherwise the truthy names are
      kept in order. */
  function SectionNames(sections: Value): Option<seq<Value>> {
    if !sections.JArr? then Some([])
    else if exists i | 0 <= i < |sections.items| :: !sections.items[i].JObj? then None
    else Some(TruthyOnly(NamesOf(sections.items)))
  }

  /** Falsy names are dropped, truthy ones kept, in order; a non-list gives no names. */
  lemma SectionNamesSpec(sections: Value)
    ensures !sections.JArr? ==> SectionNames(sections) == Some([])
    ensures SectionNames(sections).Some? && sections.JArr? ==>
      && (forall v | v in SectionNames(sections).value :: Truthy(v))
      && (forall i | 0 <= i < |sections.items| && Truthy(NameOf(sections.items[i])) ::
            NameOf(sections.items[i]) in SectionNames(sections).value)
    ensures SectionNames(sections).None? <==> sections.JArr? && exists s | s in sections.items :: !s.JObj?
  {
    if sections.JArr? && SectionNames(sections).Some? {
      TruthyOnlyMembers(NamesOf(sections.items));
      forall i | 0 <= i < |sections.items| && Truthy(NameOf(sections.items[i]))
        ensures NameOf(sections.items[i]) in SectionNames(sections).value
      {
        assert NamesOf(sections.items)[i] == NameOf(sections.items[i]);
      }
    }
  }

  // ---------------------------------------------------------------------------------------------
  // Pages

  /** `page.get('id')` on a page that is a dict. */
  function IdOf(page: Value): Value {
    if page.JObj? then Get(page.fields, "id") else JNull
  }

  /** Processing the page raises: it is not a dict, or it is kept and its sections raise. */
  predicate PageFails(page: Value) {
    !page.JObj? || (Truthy(IdOf(page)) && SectionNames(GetOr(page.fields, "sections", JArr([]))).None?)
  }

  /** The pages of the sitemap that are dicts with a truthy id, in sitemap order. */
  function Kept(sitemap: seq<Value>): (r: seq<Value>)
    ensures |r| <= |sitemap|
    ensures forall k | 0 <= k < |r| :: r[k].JObj? && Truthy(IdOf(r[k]))
  {
    if sitemap == [] then []
    else
      var n := |sitemap| - 1;
      Kept(sitemap[..n]) + (if sitemap[n].JObj? && Truthy(IdOf(sitemap[n])) then [sitemap[n]] else [])
  }

  /** Kept pages come from the sitemap, and every dict page with a truthy id is kept. */
  lemma {:induction false} KeptMembers(sitemap: seq<Value>)
    ensures forall p | p in Kept(sitemap) :: p in sitemap
    ensures forall p | p in sitemap && p.JObj? && Truthy(IdOf(p)) :: p in Kept(sitemap)
  {
    if sitemap != [] {
      var n := |sitemap| - 1;
      KeptMembers(sitemap[..n]);
      assert sitemap == sitemap[..n] + [sitemap[n]];
    }
  }

  lemma {:induction false} KeptAppend(a: seq<Value>, b: seq<Value>)
    ensures Kept(a + b) == Kept(a) + Kept(b)
  {
    if b == [] {
      assert a + b == a;
    } else {
      var n := |b| - 1;
      var ab := a + b;
      assert ab[..|ab| - 1] == a + b[..n];
      assert ab[|ab| - 1] == b[n];
      KeptAppend(a, b[..n]);
      assert Kept(ab) == Kept(a + b[..n]) + (if b[n].JObj? && Truthy(IdOf(b[n])) then [b[n]] else []);
    }
  }

  /** The output entry of a kept page: its id, its title (the id when the 'title' key is absent)
      and its section names. */
  function Entry(page: Value): (e: PageEntry)
    requires page.JObj?
    ensures e.pageId == Get(page.fields, "id")
    ensures "title" in page.fields ==> e.pageTitle == page.fields["title"]
    ensures "title" !in page.fields ==> e.pageTitle == e.pageId
  {
    var id := Get(page.fields, "id");
    PageEntry(id, GetOr(page.fields, "title", id), SectionNames(GetOr(page.fields, "sections", JArr([]))).GetOr([]))
  }

  function Entries(pages: seq<Value>): (r: seq<PageEntry>)
    requires forall i | 0 <= i < |pages| :: pages[i].JObj?
    ensures |r| == |pages| && forall k | 0 <= k < |pages| :: r[k] == Entry(pages[k])
  {
    seq(|pages|, k requires 0 <= k < |pages| => Entry(pages[k]))
  }

  /** The pages of a non-empty sitemap list: `None` when processing some page raises. */
  function Pages(sitemap: seq<Value>): Option<seq<PageEntry>> {
    if exists i | 0 <= i < |sitemap| :: PageFails(sitemap[i]) then None
    else
      Some(Entries(Kept(sitemap)))
  }

  /** `handler`'s payload. */
  function Process(event: map<string, Value>): Output {
    var projectId := GetOr(event, "projectId", JStr("unknown"));
    var projectData := Get(event, "projectData");
    if !Truthy(projectData) then Output(projectId, [], Some(MissingProjectData))
    else
      match PyIn("sitemap", projectData)
      case None => Output(projectId, [], Some(InternalError))
      case Some(found) =>
        if !found then Output(projectId, [], Some(MissingSitemap))
        // a list or string that contains "sitemap" cannot be indexed by a string
        else if !projectData.JObj? then Output(projectId, [], Some(InternalError))
        else
          var sitemap := projectData.fields["sitemap"];
          if !sitemap.JArr? || sitemap.items == [] then Output(projectId, [], None)
          else
            match Pages(sitemap.items)
            case None => Output(projectId, [], Some(InternalError))
            case Some(pages) => Output(projectId, pages, None)
  }

  // ---------------------------------------------------------------------------------------------
  // The handler

  /** The inner loop of `handler`: the names of the sections of one page, appended in order;
      `None` is the exception a section that is not a dict raises on `.get`. */
  method CollectSectionNames(sections: Value) returns (names: Option<seq<Value>>)
    ensures names == SectionNames(sections)
  {
    var sectionNames: seq<Value> := [];
    if sections.JArr? {
      var j := 0;
      while j < |sections.items|
        invariant 0 <= j <= |sections.items|
        invariant forall i | 0 <= i < j :: sections.items[i].JObj?
        invariant sectionNames == TruthyOnly(NamesOf(sections.items[..j]))
      {
        var section := sections.items[j];
        if !section.JObj? {
          return None;
        }
        assert NamesOf(sections.items[..j + 1]) == NamesOf(sections.items[..j]) + [NameOf(section)];
        var sectionName := Get(section.fields, "name");
        if Truthy(sectionName) {
          sectionNames := sectionNames + [sectionName];
        }
        j := j + 1;
      }
      assert sections.items[..j] == sections.items;
    }
    names := Some(sectionNames);
  }

  /** The outer loop of `handler`: one entry appended per page with a truthy id; `None` is an
      exception raised while reading a page. */
  method CollectPages(sitemap: seq<Value>) returns (pages: Option<seq<PageEntry>>)
    ensures pages == Pages(sitemap)
  {
    var processedPages: seq<PageEntry> := [];
    var k := 0;
    while k < |sitemap|
      invariant 0 <= k <= |sitemap|
      invariant forall i | 0 <= i < k :: !PageFails(sitemap[i])
      invariant processedPages == Entries(Kept(sitemap[..k]))
    {
      var page := sitemap[k];
      assert sitemap[..k + 1][..k] == sitemap[..k];
      if !page.JObj? {
        assert PageFails(sitemap[k]);
        return None;
      }
      var pageId := Get(page.fields, "id");
      var pageTitle := GetOr(page.fields, "title", pageId);
      if !Truthy(pageId) {
        assert Kept(sitemap[..k + 1]) == Kept(sitemap[..k]);
        k := k + 1;
        continue;
      }
      var sectionNames := CollectSectionNames(GetOr(page.fields, "sections", JArr([])));
      if sectionNames.None? {
        assert PageFails(sitemap[k]);
        return None;
      }
      var entry := PageEntry(pageId, pageTitle, sectionNames.value);
      assert entry == Entry(page);
      EntriesSnoc(Kept(sitemap[..k]), page);
      processedPages := processedPages + [entry];
      k := k + 1;
    }
    assert sitemap[..k] == sitemap;
    pages := Some(processedPages);
  }

  lemma EntriesSnoc(pages: seq<Value>, page: Value)
    requires forall i | 0 <= i < |pages| :: pages[i].JObj?
    requires page.JObj?
    ensures Entries(pages + [page]) == Entries(pages) + [Entry(page)]
  {
    assert forall i | 0 <= i < |pages| :: (pages + [page])[i] == pages[i];
  }

  /** `handler`: the checks on `projectData` and `sitemap`, then the loop over pages; an exception
      leaves with INTERNAL_ERROR and no pages. */
  method Handler(event: map<string, Value>) returns (out: Output)
    ensures out == Process(event)
  {
    var processedPages: seq<PageEntry> := [];
    var errorDetails: Option<ErrorCode> := None;
    var projectId := GetOr(event, "projectId", JStr("unknown"));
    var projectData := Get(event, "projectData");
    if !Truthy(projectData) {
      errorDetails := Some(MissingProjectData);
    } else {
      var found := PyIn("sitemap", projectData);
      if found.None? || (found.value && !projectData.JObj?) {
        errorDetails := Some(InternalError);
      } else if !found.value {
        errorDetails := Some(MissingSitemap);
      } else if !projectData.fields["sitemap"].JArr? || projectData.fields["sitemap"].items == [] {
        processedPages := [];
      } else {
        var pages := CollectPages(projectData.fields["sitemap"].items);
        if pages.None? {
          errorDetails := Some(InternalError);
          processedPages := [];
        } else {
          processedPages := pages.value;
        }
      }
    }
    out := Output(projectId, processedPages, errorDetails);
  }

  // ---------------------------------------------------------------------------------------------
  // Properties

  /** The payload always names the project ('unknown' when the event has no id), and a payload
      with an error code has no pages. */
  lemma OutputShape(event: map<string, Value>)
    ensures Process(event).projectId == GetOr(event, "projectId", JStr("unknown"))
    ensures Process(event).error.Some? ==> Process(event).pages == []
  {
  }

  /** MISSING_PROJECT_DATA exactly when `projectData` is missing or falsy. */
  lemma MissingProjectDataIff(event: map<string, Value>)
    ensures Process(event).error == Some(MissingProjectData) <==> !Truthy(Get(event, "projectData"))
  {
  }

  /** MISSING_SITEMAP exactly when `projectData` is truthy and has no 'sitemap' key (for a dict;
      for a list or string, no "sitemap" element or substring). */
  lemma MissingSitemapIff(event: map<string, Value>)
    ensures Process(event).error == Some(MissingSitemap) <==>
      Truthy(Get(event, "projectData")) && PyIn("sitemap", Get(event, "projectData")) == Some(false)
  {
  }

  /** A sitemap that is not a list, or is empty, gives no pages and no error. */
  lemma EmptySitemap(event: map<string, Value>)
    requires Get(event, "projectData").JObj? && Truthy(Get(event, "projectData"))
    requires "sitemap" in Get(event, "projectData").fields
    requires var s := Get(event, "projectData").fields["sitemap"]; !s.JArr? || s.items == []
    ensures Process(event).pages == [] && Process(event).error.None?
  {
  }

  /** When processing does not raise, there is one entry per page with a truthy id, in sitemap
      order, with that page's id, title and section names. */
  lemma PageMapping(sitemap: seq<Value>)
    requires Pages(sitemap).Some?
    ensures var ps := Pages(sitemap).value;
      && |ps| == |Kept(sitemap)|
      && forall k | 0 <= k < |ps| ::
           && Kept(sitemap)[k].JObj?
           && ps[k].pageId == Get(Kept(sitemap)[k].fields, "id")
           && Truthy(ps[k].pageId)
           && ps[k].pageTitle == GetOr(Kept(sitemap)[k].fields, "title", ps[k].pageId)
           && SectionNames(GetOr(Kept(sitemap)[k].fields, "sections", JArr([]))) == Some(ps[k].sections)
  {
    var ks := Kept(sitemap);
    KeptMembers(sitemap);
    forall k | 0 <= k < |ks| ensures SectionNames(GetOr(ks[k].fields, "sections", JArr([]))).Some? {
      assert ks[k] in ks;
      var i :| 0 <= i < |sitemap| && sitemap[i] == ks[k];
      assert !PageFails(sitemap[i]);
    }
  }

  /** A page with a falsy id is skipped before its sections are read: it adds no entry and cannot
      make the processing raise. */
  lemma SkippedPage(sitemap: seq<Value>, page: Value)
    requires page.JObj? && !Truthy(IdOf(page))
    ensures Pages(sitemap + [page]) == Pages(sitemap)
  {
    var s := sitemap + [page];
    assert s[..|sitemap|] == sitemap;
    assert Kept(s) == Kept(sitemap);
    if exists i | 0 <= i < |sitemap| :: PageFails(sitemap[i]) {
      var i :| 0 <= i < |sitemap| && PageFails(sitemap[i]);
      assert s[i] == sitemap[i];
    } else {
      forall i | 0 <= i < |s| ensures !PageFails(s[i]) {
        if i < |sitemap| { assert s[i] == sitemap[i]; }
      }
    }
  }

  /** The processing raises exactly when a page is not a dict or a page with a truthy id has a
      section list holding a non-dict; the payload is then INTERNAL_ERROR with no pages. */
  lemma InternalErrorIff(event: map<string, Value>)
    requires Get(event, "projectData").JObj? && "sitemap" in Get(event, "projectData").fields
    requires var s := Get(event, "projectData").fields["sitemap"]; s.JArr? && s.items != []
    ensures var s := Get(event, "projectData").fields["sitemap"].items;
      Process(event) == Output(GetOr(event, "projectId", JStr("unknown")), [], Some(InternalError)) <==>
        exists p | p in s :: PageFails(p)
  {
    var s := Get(event, "projectData").fields["sitemap"].items;
    assert Truthy(Get(event, "projectData"));
    if exists p | p in s :: PageFails(p) {
      var p :| p in s && PageFails(p);
      var i :| 0 <= i < |s| && s[i] == p;
    }
  }
}
