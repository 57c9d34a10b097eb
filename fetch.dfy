/**
 * `fetch_and_unpack`: read the list of download URLs from `env.yaml`,
 * download each into the staging directory (or, in a dry run, only say what
 * would be fetched), then unpack the staging directory without deleting
 * archives. The YAML loader, the HTTP client and the archive library are
 * oracles passed in as values.
 */
module Fetch {
  import opened Files
  import Unpack

  // ---------------------------------------------------------------------
  // Small string helpers with Python's meaning
  // ---------------------------------------------------------------------

  /** `str.isspace()` for one character. */
  predicate IsSpace(c: char)
  {
    c == ' ' || ('\t' <= c <= '\r') || ('\U{1c}' <= c <= '\U{1f}') ||
    c == '\U{85}' || c == '\U{a0}' || c == '\U{1680}' || ('\U{2000}' <= c <= '\U{200a}') ||
    c == '\U{2028}' || c == '\U{2029}' || c == '\U{202f}' || c == '\U{205f}' || c == '\U{3000}'
  }

  /** `s.lstrip()`: the suffix of `s` after its leading whitespace. */
  function TrimStart(s: string): (r: string)
    ensures |r| <= |s| && r == s[|s| - |r|..]
    ensures r == "" || !IsSpace(r[0])
    ensures forall k :: 0 <= k < |s| - |r| ==> IsSpace(s[k])
  {
    if |s| > 0 && IsSpace(s[0]) then TrimStart(s[1..]) else s
  }

  /** `s.rstrip()`: the prefix of `s` before its trailing whitespace. */
  function TrimEnd(s: string): (r: string)
    ensures |r| <= |s| && r == s[..|r|]
    ensures r == "" || !IsSpace(r[|r| - 1])
    ensures forall k :: |r| <= k < |s| ==> IsSpace(s[k])
  {
    if |s| > 0 && IsSpace(s[|s| - 1]) then TrimEnd(s[..|s| - 1]) else s
  }

  /** `s.strip()`. */
  function Strip(s: string): string
  {
    TrimEnd(TrimStart(s))
  }

  /** A string with no whitespace at either end is its own `strip()`. */
  lemma StripOfStripped(s: string)
    requires s == "" || (!IsSpace(s[0]) && !IsSpace(s[|s| - 1]))
    ensures Strip(s) == s
  {
  }

  predicate StartsWith(s: string, prefix: string)
  {
    |prefix| <= |s| && s[..|prefix|] == prefix
  }

  /** `sep` occurs in `s` starting at position `k`. */
  predicate SepAt(s: string, sep: string, k: int)
  {
    0 <= k <= |s| - |sep| && s[k..k + |sep|] == sep
  }

  /** Occurrences in `s[1..]` are those in `s`, one position earlier. */
  lemma SepAtTail(s: string, sep: string)
    requires s != []
    ensures forall k :: 1 <= k ==> (SepAt(s, sep, k) <==> SepAt(s[1..], sep, k - 1))
  {
    forall k | 1 <= k
      ensures SepAt(s, sep, k) <==> SepAt(s[1..], sep, k - 1)
    {
      if k <= |s| - |sep| {
        assert s[1..][k - 1..k - 1 + |sep|] == s[k..k + |sep|];
      }
    }
  }

  /** Index of the first occurrence of `sep` in `s`, or -1 when there is
      none: where `str.split(sep, 1)` cuts. */
  function Find(s: string, sep: string): (i: int)
    ensures i == -1 || 0 <= i <= |s| - |sep|
    ensures i == -1 <==> forall k :: !SepAt(s, sep, k)
    ensures 0 <= i ==> SepAt(s, sep, i) && forall k :: 0 <= k < i ==> !SepAt(s, sep, k)
    ensures StartsWith(s, sep) ==> i == 0
    decreases |s|
  {
    if |s| < |sep| then -1
    else if s[..|sep|] == sep then assert SepAt(s, sep, 0); 0
    else
      var j := Find(s[1..], sep);
      FirstSepShift(s, sep, j);
      if j < 0 then -1 else j + 1
  }

  /** The first occurrence in `s[1..]`, one position later, is the first in
      `s` when `sep` does not start `s`. */
  lemma FirstSepShift(s: string, sep: string, j: int)
    requires s != [] && !SepAt(s, sep, 0) && -1 <= j
    requires j == -1 <==> forall k :: !SepAt(s[1..], sep, k)
    requires 0 <= j ==> SepAt(s[1..], sep, j) && forall k :: 0 <= k < j ==> !SepAt(s[1..], sep, k)
    ensures var i := if j < 0 then -1 else j + 1;
            && (i == -1 <==> forall k :: !SepAt(s, sep, k))
            && (0 <= i ==> SepAt(s, sep, i) && forall k :: 0 <= k < i ==> !SepAt(s, sep, k))
  {
    SepAtTail(s, sep);
    if j >= 0 {
      assert SepAt(s, sep, j + 1);
    } else {
      forall k ensures !SepAt(s, sep, k) {
        if k >= 1 {
          assert !SepAt(s[1..], sep, k - 1);
        }
      }
    }
  }

  // ---------------------------------------------------------------------
  // The URL list
  // ---------------------------------------------------------------------

  /** One item of the loaded YAML list. A mapping keeps its keys with the
      `str()` rendering of their values; any other item is opaque. */
  datatype Item = Mapping(fields: map<string, string>) | NotMapping

  /** The document `yaml.safe_load` returned. */
  datatype Document = ItemList(items: seq<Item>) | NotAList

  /** Whether loading raised (for any reason, a missing yaml module included). */
  datatype Loaded = Loaded(doc: Document) | LoadFailed

  /** `env.yaml`: missing; present but unreadable as UTF-8 text (a
      directory, undecodable bytes), so that the fallback `read_text` in the
      `except` block raises again; or present with what the loader made of
      it and the lines of its text. */
  datatype Config = NoConfig | Unreadable | ConfigFile(loaded: Loaded, lines: seq<string>)

  /** The URL an item contributes, if it is a mapping with a "url" key. */
  function ItemUrl(item: Item): Option<string>
  {
    if item.Mapping? && "url" in item.fields then Some(item.fields["url"]) else None
  }

  /** The URL a line contributes in the fallback scan: the line, stripped,
      must start with "url:"; the value is what follows the first "url:",
      stripped. */
  function LineUrl(line: string): (r: Option<string>)
    ensures r.Some? <==> StartsWith(Strip(line), "url:")
    ensures r.Some? ==> r.value == Strip(Strip(line)[4..])
  {
    var t := Strip(line);
    if StartsWith(t, "url:") then Some(Strip(t[Find(t, "url:") + 4..])) else None
  }

  /** Keep, in order, the values an extractor finds. */
  function Harvest<T>(xs: seq<T>, pick: T -> Option<string>): (urls: seq<string>)
    decreases |xs|
  {
    if xs == [] then []
    else
      var rest := Harvest(xs[..|xs| - 1], pick);
      match pick(xs[|xs| - 1])
      case Some(u) => rest + [u]
      case None => rest
  }

  /** Harvesting distributes over concatenation: the result keeps the order
      of the input, item by item. */
  lemma {:induction false} HarvestAppend<T>(xs: seq<T>, ys: seq<T>, pick: T -> Option<string>)
    ensures Harvest(xs + ys, pick) == Harvest(xs, pick) + Harvest(ys, pick)
    decreases |ys|
  {
    if ys == [] {
      assert xs + ys == xs;
    } else {
      var ys' := ys[..|ys| - 1];
      assert (xs + ys)[..|xs + ys| - 1] == xs + ys';
      HarvestAppend(xs, ys', pick);
    }
  }

  /** Never more values than inputs, and a value is harvested exactly when
      some input yields it. */
  lemma {:induction false} HarvestMembers<T>(xs: seq<T>, pick: T -> Option<string>)
    ensures |Harvest(xs, pick)| <= |xs|
    ensures forall u :: u in Harvest(xs, pick) <==> exists i :: 0 <= i < |xs| && pick(xs[i]) == Some(u)
    decreases |xs|
  {
    if xs != [] {
      var prefix := xs[..|xs| - 1];
      HarvestMembers(prefix, pick);
      forall u
        ensures u in Harvest(xs, pick) <==> exists i :: 0 <= i < |xs| && pick(xs[i]) == Some(u)
      {
        if exists i :: 0 <= i < |xs| && pick(xs[i]) == Some(u) {
          var i :| 0 <= i < |xs| && pick(xs[i]) == Some(u);
          if i < |prefix| {
            assert pick(prefix[i]) == Some(u);
          }
        }
        if u in Harvest(prefix, pick) {
          var i :| 0 <= i < |prefix| && pick(prefix[i]) == Some(u);
          assert xs[i] == prefix[i];
        }
      }
    }
  }

  /** The URLs of a loaded document: `str(item["url"])` for the list items
      that are mappings with a "url" key; nothing when the document is not a
      list. */
  function DocumentUrls(doc: Document): seq<string>
  {
    match doc
    case ItemList(items) => Harvest(items, ItemUrl)
    case NotAList => []
  }

  /** The URL list of a present `env.yaml`: the structured reading when the
      loader succeeded, the line scan when it raised. */
  function ConfigUrls(loaded: Loaded, lines: seq<string>): seq<string>
  {
    match loaded
    case Loaded(doc) => DocumentUrls(doc)
    case LoadFailed => Harvest(lines, LineUrl)
  }

  /** The structured reading keeps exactly the mapping items with a "url"
      key, in document order, one URL per such item. */
  lemma StructuredUrls(items: seq<Item>)
    ensures |DocumentUrls(ItemList(items))| <= |items|
    ensures forall u :: u in DocumentUrls(ItemList(items)) <==>
              exists i :: 0 <= i < |items| && items[i].Mapping? && "url" in items[i].fields && items[i].fields["url"] == u
    ensures forall a, b :: items == a + b ==>
              DocumentUrls(ItemList(items)) == DocumentUrls(ItemList(a)) + DocumentUrls(ItemList(b))
  {
    HarvestMembers(items, ItemUrl);
    forall a, b | items == a + b
      ensures DocumentUrls(ItemList(items)) == DocumentUrls(ItemList(a)) + DocumentUrls(ItemList(b))
    {
      HarvestAppend(a, b, ItemUrl);
    }
  }

  /** The fallback scan keeps, in line order, exactly the lines whose
      stripped form starts with "url:", one URL per such line. */
  lemma ScannedUrls(lines: seq<string>)
    ensures |Harvest(lines, LineUrl)| <= |lines|
    ensures forall u :: u in Harvest(lines, LineUrl) <==> exists i :: 0 <= i < |lines| && LineUrl(lines[i]) == Some(u)
  {
    HarvestMembers(lines, LineUrl);
  }

  /** Scanning a file in two parts scans each part in turn. */
  lemma ScannedUrlsAppend(a: seq<string>, b: seq<string>)
    ensures Harvest(a + b, LineUrl) == Harvest(a, LineUrl) + Harvest(b, LineUrl)
  {
    HarvestAppend(a, b, LineUrl);
  }

  /** A list-style line such as "- url: x" contributes nothing: once
      stripped it starts with '-', not with "url:". */
  lemma DashedLineIgnored(line: string)
    requires Strip(line) != "" && Strip(line)[0] == '-'
    ensures LineUrl(line) == None
  {
    var t := Strip(line);
    assert !StartsWith(t, "url:") by {
      assert "url:"[0] == 'u';
    }
  }

  lemma DashedEntryExample()
    ensures LineUrl("- url: x") == None
  {
    var t := "- url: x";
    assert t[0] == '-' && t[|t| - 1] == 'x';
    StripOfStripped(t);
    DashedLineIgnored(t);
  }

  /** An indented "url:" entry strips to the entry itself. */
  lemma StripUrlEntry(indent: string, v: string)
    requires forall k :: 0 <= k < |indent| ==> IsSpace(indent[k])
    requires v == "" || !IsSpace(v[|v| - 1])
    ensures Strip(indent + "url:" + v) == "url:" + v
  {
    var t := "url:" + v;
    assert indent + "url:" + v == indent + t;
    assert !IsSpace(t[0]) by { assert t[0] == 'u'; }
    TrimStartPastBlanks(indent, t);
    assert !IsSpace(t[|t| - 1]) by {
      if v == "" { assert t[|t| - 1] == ':'; } else { assert t[|t| - 1] == v[|v| - 1]; }
    }
    TrimEndKeeps(t);
  }

  lemma TrimEndKeeps(s: string)
    requires s != "" && !IsSpace(s[|s| - 1])
    ensures TrimEnd(s) == s
  {
  }

  /** An indented "url: v" line yields v, for any v without surrounding
      whitespace. */
  lemma UrlLineValue(indent: string, v: string)
    requires forall k :: 0 <= k < |indent| ==> IsSpace(indent[k])
    requires v == "" || (!IsSpace(v[0]) && !IsSpace(v[|v| - 1]))
    ensures LineUrl(indent + "url:" + v) == Some(v)
  {
    var t := "url:" + v;
    StripUrlEntry(indent, v);
    assert t[..4] == "url:";
    assert t[4..] == v;
    StripOfStripped(v);
  }

  lemma {:induction false} TrimStartPastBlanks(blank: string, s: string)
    requires forall k :: 0 <= k < |blank| ==> IsSpace(blank[k])
    requires s != "" && !IsSpace(s[0])
    ensures TrimStart(blank + s) == s
    decreases |blank|
  {
    if blank != [] {
      assert (blank + s)[1..] == blank[1..] + s;
      TrimStartPastBlanks(blank[1..], s);
    } else {
      assert blank + s == s;
    }
  }

  /** The two loops that fill `urls` in `fetch_and_unpack`. */
  method ReadUrls(loaded: Loaded, lines: seq<string>) returns (urls: seq<string>)
    ensures urls == ConfigUrls(loaded, lines)
  {
    urls := [];
    match loaded {
      case Loaded(doc) =>
        if doc.ItemList? {
          var items := doc.items;
          for i := 0 to |items|
            invariant urls == Harvest(items[..i], ItemUrl)
          {
            assert items[..i + 1][..i] == items[..i];
            var item := items[i];
            if item.Mapping? && "url" in item.fields {
              urls := urls + [item.fields["url"]];
            }
          }
          assert items[..|items|] == items;
        }
      case LoadFailed =>
        for i := 0 to |lines|
          invariant urls == Harvest(lines[..i], LineUrl)
        {
          assert lines[..i + 1][..i] == lines[..i];
          var line := Strip(lines[i]);
          if StartsWith(line, "url:") {
            var v := line[Find(line, "url:") + 4..];
            urls := urls + [Strip(v)];
          }
        }
        assert lines[..|lines|] == lines;
    }
  }

  // ---------------------------------------------------------------------
  // basename_from_url
  // ---------------------------------------------------------------------

  predicate SchemeChar(c: char)
  {
    ('a' <= c <= 'z') || ('A' <= c <= 'Z') || ('0' <= c <= '9') || c == '+' || c == '-' || c == '.'
  }

  predicate Letter(c: char)
  {
    ('a' <= c <= 'z') || ('A' <= c <= 'Z')
  }

  /** Index of the first occurrence of one of `cs` in `s`, or |s|. */
  function FirstOf(s: string, cs: set<char>): (i: nat)
    ensures i <= |s|
    ensures forall k :: 0 <= k < i ==> s[k] !in cs
    ensures i < |s| ==> s[i] in cs
  {
    if s == [] then 0
    else if s[0] in cs then 0
    else FirstOf(s[1..], cs) + 1
  }

  /** How many leading characters `urlsplit` takes as "scheme:": the text
      before the first ':' when it is non-empty, starts with a letter and is
      made of scheme characters; otherwise none. */
  function SchemeLength(url: string): (n: nat)
    ensures n <= |url|
  {
    var i := FirstOf(url, {':'});
    if 0 < i < |url| && Letter(url[0]) && forall k :: 0 <= k < i ==> SchemeChar(url[k]) then i + 1 else 0
  }

  /** The path component of `urlsplit(url)`: after the scheme and, when the
      rest starts with "//", after the network location (which ends at the
      first '/', '?' or '#'); up to the first '?' or '#'. */
  function UrlPath(url: string): string
  {
    PathOfRest(url[SchemeLength(url)..])
  }

  /** The path part of what follows the scheme. */
  function PathOfRest(rest: string): string
  {
    var start := if StartsWith(rest, "//") then 2 + FirstOf(rest[2..], {'/', '?', '#'}) else 0;
    var tail := rest[start..];
    tail[..FirstOf(tail, {'?', '#'})]
  }

  /** Index of the last '/' in `p`, or -1. */
  function LastSlash(p: string): (k: int)
    ensures -1 <= k < |p|
    ensures 0 <= k ==> p[k] == '/'
    ensures forall j :: k < j < |p| ==> p[j] != '/'
  {
    if p == [] then -1
    else if p[|p| - 1] == '/' then |p| - 1
    else LastSlash(p[..|p| - 1])
  }

  /** `PurePosixPath(p).name`: the last component of `p`, where empty and
      "." components are dropped; "" when nothing is left. */
  function PathName(p: string): (name: string)
    ensures '/' !in name && name != "."
    decreases |p|
  {
    var k := LastSlash(p);
    var seg := p[k + 1..];
    if seg != "" && seg != "." then seg
    else if k < 0 then ""
    else PathName(p[..k])
  }

  /** `basename_from_url`: the name of the URL's path, or the whole URL
      when that name is empty. */
  function BasenameFromUrl(url: string): string
  {
    var name := PathName(UrlPath(url));
    if name == "" then url else name
  }

  /** The result is the whole URL, or a single non-empty path component
      other than "."; it is empty only for the empty URL. */
  lemma BasenameShape(url: string)
    ensures var r := BasenameFromUrl(url);
            r == url || (r != "" && r != "." && '/' !in r)
    ensures BasenameFromUrl(url) == "" <==> url == ""
  {
  }

  /** The last component of ".../name" is `name`. */
  lemma PathNameOfJoin(dirs: string, name: string)
    requires name != "" && name != "." && '/' !in name
    ensures PathName(dirs + "/" + name) == name
  {
    var p := dirs + "/" + name;
    assert p[|dirs|] == '/';
    assert forall j :: |dirs| < j < |p| ==> p[j] == name[j - |dirs| - 1];
    assert p[|dirs| + 1..] == name;
  }

  predicate IsScheme(s: string)
  {
    s != "" && Letter(s[0]) && forall k :: 0 <= k < |s| ==> SchemeChar(s[k])
  }

  lemma FirstOfAt(s: string, cs: set<char>, i: nat)
    requires i <= |s|
    requires forall k :: 0 <= k < i ==> s[k] !in cs
    requires i < |s| ==> s[i] in cs
    ensures FirstOf(s, cs) == i
  {
  }

  /** A valid scheme followed by ':' is exactly what `urlsplit` takes off. */
  lemma SchemeLengthOf(scheme: string, tail: string)
    requires IsScheme(scheme)
    ensures SchemeLength(scheme + ":" + tail) == |scheme| + 1
  {
    var url := scheme + ":" + tail;
    assert url[|scheme|] == ':';
    forall k | 0 <= k < |scheme| ensures url[k] !in {':'} && SchemeChar(url[k]) {
      assert url[k] == scheme[k];
    }
    FirstOfAt(url, {':'}, |scheme|);
  }

  /** After "//", the network location runs up to the first '/', '?' or
      '#', and the path follows it. */
  lemma PathAfterNetloc(host: string, path: string)
    requires forall k :: 0 <= k < |host| ==> host[k] !in {'/', '?', '#'}
    requires path == "" || path[0] == '/'
    requires forall k :: 0 <= k < |path| ==> path[k] !in {'?', '#'}
    ensures PathOfRest("//" + host + path) == path
  {
    var rest := "//" + host + path;
    var hp := host + path;
    assert rest[..2] == "//";
    assert rest[2..] == hp;
    forall k | 0 <= k < |host| ensures hp[k] !in {'/', '?', '#'} {
      assert hp[k] == host[k];
    }
    if path != "" {
      assert hp[|host|] == '/';
    }
    FirstOfAt(hp, {'/', '?', '#'}, |host|);
    assert rest[2 + |host|..] == path;
    FirstOfAt(path, {'?', '#'}, |path|);
  }

  /** The path of "scheme://host/path" is "/path" when the host holds none
      of '/', '?', '#' and the path holds neither '?' nor '#'. */
  lemma UrlPathOfHostUrl(scheme: string, host: string, path: string)
    requires IsScheme(scheme)
    requires forall k :: 0 <= k < |host| ==> host[k] !in {'/', '?', '#'}
    requires path == "" || path[0] == '/'
    requires forall k :: 0 <= k < |path| ==> path[k] !in {'?', '#'}
    ensures UrlPath(scheme + "://" + host + path) == path
  {
    var url := scheme + "://" + host + path;
    assert url == scheme + ":" + ("//" + host + path);
    SchemeLengthOf(scheme, "//" + host + path);
    assert url[|scheme| + 1..] == "//" + host + path;
    PathAfterNetloc(host, path);
  }

  /** For "scheme://host/dirs.../name", the basename is `name`. */
  lemma BasenameOfFileUrl(scheme: string, host: string, dirs: string, name: string)
    requires IsScheme(scheme)
    requires forall k :: 0 <= k < |host| ==> host[k] !in {'/', '?', '#'}
    requires dirs == "" || dirs[0] == '/'
    requires forall k :: 0 <= k < |dirs| ==> dirs[k] !in {'?', '#'}
    requires name != "" && name != "." && forall k :: 0 <= k < |name| ==> name[k] !in {'/', '?', '#'}
    ensures BasenameFromUrl(scheme + "://" + host + dirs + "/" + name) == name
  {
    var path := dirs + "/" + name;
    forall k | 0 <= k < |path| ensures path[k] !in {'?', '#'} {
      if k < |dirs| { assert path[k] == dirs[k]; }
      else if k > |dirs| { assert path[k] == name[k - |dirs| - 1]; }
    }
    assert scheme + "://" + host + dirs + "/" + name == scheme + "://" + host + path;
    UrlPathOfHostUrl(scheme, host, path);
    PathNameOfJoin(dirs, name);
  }

  /** A URL without a path ("scheme://host") names itself. */
  lemma BasenameOfBareHost(scheme: string, host: string)
    requires IsScheme(scheme)
    requires forall k :: 0 <= k < |host| ==> host[k] !in {'/', '?', '#'}
    ensures BasenameFromUrl(scheme + "://" + host) == scheme + "://" + host
  {
    assert scheme + "://" + host + "" == scheme + "://" + host;
    UrlPathOfHostUrl(scheme, host, "");
  }

  lemma ExampleArchiveName()
    ensures BasenameFromUrl("https://example.com/mods/foo.zip") == "foo.zip"
  {
    assert "https://example.com/mods/foo.zip" == "https" + "://" + "example.com" + "/mods" + "/" + "foo.zip";
    BasenameOfFileUrl("https", "example.com", "/mods", "foo.zip");
  }

  // ---------------------------------------------------------------------
  // The download loop
  // ---------------------------------------------------------------------

  /** What fetching one URL did: the whole body arrived; the request failed
      before the destination file was opened (connection error, HTTP error
      status); or it failed after the file was opened, leaving `partial`. */
  datatype Download = Body(bytes: Bytes) | Refused | Cut(partial: Bytes)

  /** The outcome the loop reaches for one URL: narrated in a dry run,
      saved (the download logged no failure), or failed (the download
      raised and "Failed to download" was logged). One event per URL; an
      event is not a line of the log. */
  datatype Event = WouldFetch(url: string, name: string) | Saved(url: string, name: string) | Failed(url: string)

  datatype Haul = Haul(dir: map<string, Entry>, events: seq<Event>)

  /** `open(dest / name, "wb")` can succeed: `name` is one plain component
      and is not a directory already. */
  predicate Writable(dir: map<string, Entry>, name: string)
  {
    name != "" && name != "." && name != ".." && '/' !in name && !(name in dir && dir[name].Dir?)
  }

  /** The outcome of one iteration: in a dry run the "Would fetch"
      narration; otherwise a save exactly when the whole body arrived and
      could be written, a failure in every other case. */
  function Report(dir: map<string, Entry>, url: string, dryRun: bool, net: string -> Download): Event
  {
    var name := BasenameFromUrl(url);
    if dryRun then WouldFetch(url, name)
    else match net(url)
      case Body(_) => if Writable(dir, name) then Saved(url, name) else Failed(url)
      case Refused => Failed(url)
      case Cut(_) => Failed(url)
  }

  /** What the outcome records: always the URL; in a dry run "Would fetch"
      under the URL's basename; otherwise saved (under that basename)
      exactly when the whole body arrived and was writable, failed else. */
  lemma ReportSpec(dir: map<string, Entry>, url: string, dryRun: bool, net: string -> Download)
    ensures var e := Report(dir, url, dryRun, net);
            EventUrl(e) == url &&
            (dryRun ==> e == WouldFetch(url, BasenameFromUrl(url))) &&
            (!dryRun ==> (e.Saved? <==> net(url).Body? && Writable(dir, BasenameFromUrl(url)))) &&
            (!dryRun && !e.Saved? ==> e.Failed?) &&
            (e.Saved? ==> e.name == BasenameFromUrl(url))
  {
  }

  /** The directory after one iteration: only the URL's basename may change,
      and only to a file holding what arrived, whole or partial. */
  function Written(dir: map<string, Entry>, url: string, dryRun: bool, net: string -> Download): map<string, Entry>
  {
    var name := BasenameFromUrl(url);
    if dryRun || !Writable(dir, name) then dir
    else match net(url)
      case Body(bytes) => dir[name := File(bytes)]
      case Refused => dir
      case Cut(partial) => dir[name := File(partial)]
  }

  /** One iteration writes at most the URL's basename, never over a
      directory; nothing in a dry run or when refused; the whole body when
      it arrived and was writable. */
  lemma WrittenSpec(dir: map<string, Entry>, url: string, dryRun: bool, net: string -> Download)
    ensures var d := Written(dir, url, dryRun, net);
            dir.Keys <= d.Keys &&
            (forall x :: x in d && x != BasenameFromUrl(url) ==> x in dir && d[x] == dir[x]) &&
            (forall x :: x in d && d[x].Dir? ==> x in dir && d[x] == dir[x]) &&
            (forall x :: x in dir && dir[x].Dir? ==> d[x] == dir[x]) &&
            (dryRun || net(url).Refused? ==> d == dir) &&
            (!dryRun && net(url).Body? && Writable(dir, BasenameFromUrl(url)) ==>
               d == dir[BasenameFromUrl(url) := File(net(url).bytes)])
  {
  }

  /** One iteration of the loop. */
  function FetchOne(h: Haul, url: string, dryRun: bool, net: string -> Download): Haul
  {
    Haul(Written(h.dir, url, dryRun, net), h.events + [Report(h.dir, url, dryRun, net)])
  }

  /** The whole loop: one event per URL. */
  function FetchAll(d0: map<string, Entry>, urls: seq<string>, dryRun: bool, net: string -> Download): (h: Haul)
    ensures |h.events| == |urls|
    decreases |urls|
  {
    if urls == [] then Haul(d0, [])
    else FetchOne(FetchAll(d0, urls[..|urls| - 1], dryRun, net), urls[|urls| - 1], dryRun, net)
  }

  function EventUrl(e: Event): string
  {
    match e
    case WouldFetch(u, _) => u
    case Saved(u, _) => u
    case Failed(u) => u
  }

  /** Every URL gets exactly one event, in order, computed from the
      directory as the loop left it just before that URL. */
  lemma EventsInOrder(d0: map<string, Entry>, urls: seq<string>, dryRun: bool, net: string -> Download)
    ensures var h := FetchAll(d0, urls, dryRun, net);
            |h.events| == |urls| &&
            forall i :: 0 <= i < |urls| ==>
              h.events[i] == Report(FetchAll(d0, urls[..i], dryRun, net).dir, urls[i], dryRun, net)
  {
    forall i | 0 <= i < |urls|
      ensures FetchAll(d0, urls, dryRun, net).events[i] == Report(FetchAll(d0, urls[..i], dryRun, net).dir, urls[i], dryRun, net)
    {
      EventAt(d0, urls, dryRun, net, i);
    }
  }

  /** The event of the URL at index `i`, whatever URLs follow it. */
  lemma {:induction false} EventAt(d0: map<string, Entry>, urls: seq<string>, dryRun: bool, net: string -> Download, i: nat)
    requires i < |urls|
    ensures FetchAll(d0, urls, dryRun, net).events[i] == Report(FetchAll(d0, urls[..i], dryRun, net).dir, urls[i], dryRun, net)
    decreases |urls|
  {
    if i < |urls| - 1 {
      EventAt(d0, urls[..|urls| - 1], dryRun, net, i);
      EventShift(d0, urls, dryRun, net, i);
    } else {
      LastEventAt(d0, urls, dryRun, net);
    }
  }

  /** An event already fixed for a prefix stays fixed once a URL is appended. */
  lemma EventShift(d0: map<string, Entry>, urls: seq<string>, dryRun: bool, net: string -> Download, i: nat)
    requires i < |urls| - 1
    requires var p := urls[..|urls| - 1];
             FetchAll(d0, p, dryRun, net).events[i] == Report(FetchAll(d0, p[..i], dryRun, net).dir, p[i], dryRun, net)
    ensures FetchAll(d0, urls, dryRun, net).events[i] == Report(FetchAll(d0, urls[..i], dryRun, net).dir, urls[i], dryRun, net)
  {
    EarlierEvent(d0, urls, dryRun, net, i);
    PrefixOfInit(urls, i);
  }

  lemma PrefixOfInit(urls: seq<string>, i: nat)
    requires i < |urls| - 1
    ensures urls[..|urls| - 1][..i] == urls[..i] && urls[..|urls| - 1][i] == urls[i]
  {
  }

  /** The event of the last URL, in the form `EventAt` states. */
  lemma LastEventAt(d0: map<string, Entry>, urls: seq<string>, dryRun: bool, net: string -> Download)
    requires urls != []
    ensures var i := |urls| - 1;
            FetchAll(d0, urls, dryRun, net).events[i] == Report(FetchAll(d0, urls[..i], dryRun, net).dir, urls[i], dryRun, net)
  {
    LastEvent(d0, urls, dryRun, net);
  }

  /** Appending a URL keeps the events of the URLs before it. */
  lemma EarlierEvent(d0: map<string, Entry>, urls: seq<string>, dryRun: bool, net: string -> Download, i: nat)
    requires i < |urls| - 1
    requires |FetchAll(d0, urls[..|urls| - 1], dryRun, net).events| == |urls| - 1
    ensures FetchAll(d0, urls, dryRun, net).events[i] == FetchAll(d0, urls[..|urls| - 1], dryRun, net).events[i]
  {
  }

  /** Appending a URL adds its own event at the end. */
  lemma LastEvent(d0: map<string, Entry>, urls: seq<string>, dryRun: bool, net: string -> Download)
    requires urls != []
    requires |FetchAll(d0, urls[..|urls| - 1], dryRun, net).events| == |urls| - 1
    ensures var hp := FetchAll(d0, urls[..|urls| - 1], dryRun, net);
            FetchAll(d0, urls, dryRun, net).events[|urls| - 1] == Report(hp.dir, urls[|urls| - 1], dryRun, net)
  {
  }

  /** A dry run touches nothing and never consults the network: one
      "Would fetch url -> name" line per URL, in order. */
  lemma DryRunNarrates(d0: map<string, Entry>, urls: seq<string>, net: string -> Download)
    ensures var h := FetchAll(d0, urls, true, net);
            h.dir == d0 && |h.events| == |urls| &&
            forall i :: 0 <= i < |urls| ==> h.events[i] == WouldFetch(urls[i], BasenameFromUrl(urls[i]))
  {
    DryRunKeepsDir(d0, urls, net);
    EventsInOrder(d0, urls, true, net);
    forall i | 0 <= i < |urls| {
      ReportSpec(FetchAll(d0, urls[..i], true, net).dir, urls[i], true, net);
    }
  }

  lemma {:induction false} DryRunKeepsDir(d0: map<string, Entry>, urls: seq<string>, net: string -> Download)
    ensures FetchAll(d0, urls, true, net).dir == d0
    decreases |urls|
  {
    if urls != [] {
      DryRunKeepsDir(d0, urls[..|urls| - 1], net);
    }
  }

  /** The loop never creates, removes or changes a directory. */
  lemma {:induction false} DirsUntouched(d0: map<string, Entry>, urls: seq<string>, dryRun: bool, net: string -> Download)
    ensures var d := FetchAll(d0, urls, dryRun, net).dir;
            (forall x :: x in d && d[x].Dir? ==> x in d0 && d[x] == d0[x]) &&
            (forall x :: x in d0 && d0[x].Dir? ==> x in d && d[x] == d0[x])
    decreases |urls|
  {
    if urls != [] {
      var prefix := urls[..|urls| - 1];
      DirsUntouched(d0, prefix, dryRun, net);
      var dp := FetchAll(d0, prefix, dryRun, net).dir;
      assert FetchAll(d0, urls, dryRun, net).dir == Written(dp, urls[|urls| - 1], dryRun, net);
      WrittenSpec(dp, urls[|urls| - 1], dryRun, net);
    }
  }

  /** A real run reports every URL exactly once and in order, so one failure
      never stops the URLs after it: the event for a URL is a success exactly
      when its whole body arrived and its basename is writable in the
      staging directory as it was; every other outcome is a failure. */
  lemma EveryUrlReported(d0: map<string, Entry>, urls: seq<string>, net: string -> Download)
    ensures var h := FetchAll(d0, urls, false, net);
            && |h.events| == |urls|
            && (forall i :: 0 <= i < |urls| ==> EventUrl(h.events[i]) == urls[i])
            && (forall i :: 0 <= i < |urls| ==>
                  (h.events[i].Saved? <==> net(urls[i]).Body? && Writable(d0, BasenameFromUrl(urls[i]))))
            && (forall i :: 0 <= i < |urls| && !h.events[i].Saved? ==> h.events[i].Failed?)
  {
    EventsInOrder(d0, urls, false, net);
    var h := FetchAll(d0, urls, false, net);
    forall i | 0 <= i < |urls|
      ensures EventUrl(h.events[i]) == urls[i]
      ensures h.events[i].Saved? <==> net(urls[i]).Body? && Writable(d0, BasenameFromUrl(urls[i]))
      ensures !h.events[i].Saved? ==> h.events[i].Failed?
    {
      DirsUntouched(d0, urls[..i], false, net);
      var dp := FetchAll(d0, urls[..i], false, net).dir;
      ReportSpec(dp, urls[i], false, net);
      var n := BasenameFromUrl(urls[i]);
      assert Writable(dp, n) <==> Writable(d0, n) by {
        if n in dp && dp[n].Dir? { assert n in d0 && d0[n].Dir?; }
        if n in d0 && d0[n].Dir? { assert n in dp && dp[n].Dir?; }
      }
    }
  }

  /** Entries whose name is not the basename of any URL are left as they
      were, and nothing is ever removed. */
  lemma {:induction false} OnlyBasenamesWritten(d0: map<string, Entry>, urls: seq<string>, dryRun: bool, net: string -> Download)
    ensures var h := FetchAll(d0, urls, dryRun, net);
            d0.Keys <= h.dir.Keys &&
            forall x :: x in h.dir && (forall i :: 0 <= i < |urls| ==> BasenameFromUrl(urls[i]) != x) ==>
              x in d0 && h.dir[x] == d0[x]
    decreases |urls|
  {
    if urls != [] {
      var prefix := urls[..|urls| - 1];
      OnlyBasenamesWritten(d0, prefix, dryRun, net);
      var h := FetchAll(d0, urls, dryRun, net);
      var dp := FetchAll(d0, prefix, dryRun, net).dir;
      assert h.dir == Written(dp, urls[|urls| - 1], dryRun, net);
      WrittenSpec(dp, urls[|urls| - 1], dryRun, net);
      forall x | x in h.dir && (forall i :: 0 <= i < |urls| ==> BasenameFromUrl(urls[i]) != x)
        ensures x in d0 && h.dir[x] == d0[x]
      {
        assert BasenameFromUrl(urls[|urls| - 1]) != x;
        forall i | 0 <= i < |prefix| ensures BasenameFromUrl(prefix[i]) != x {
          assert prefix[i] == urls[i];
        }
      }
    }
  }

  // ---------------------------------------------------------------------
  // fetch_and_unpack
  // ---------------------------------------------------------------------

  /** What `fetch_and_unpack` leaves behind: a returned status, or an
      exception that escapes it. */
  datatype Outcome =
    | Outcome(status: int, events: seq<Event>, staging: Option<map<string, Entry>>)
    | Raised(staging: Option<map<string, Entry>>)

  /** No config: 2, no staging directory created, nothing downloaded or
      unpacked. An unreadable config: the exception escapes before the
      staging directory is created. Otherwise the staging directory is
      created if missing, the URLs are fetched (or narrated) in order, the
      directory is unpacked without deleting archives, dry run or not, and
      the result is 0. */
  function FetchOutcome(config: Config, staging: Option<map<string, Entry>>, dryRun: bool,
                        net: string -> Download, tools: Unpack.Tools): (r: Outcome)
    ensures config.NoConfig? ==> r == Outcome(2, [], staging)
    ensures config.Unreadable? <==> r.Raised?
    ensures r.Raised? ==> r.staging == staging
    ensures config.ConfigFile? ==> r.Outcome? && r.status == 0 && r.staging.Some?
  {
    match config
    case NoConfig => Outcome(2, [], staging)
    case Unreadable => Raised(staging)
    case ConfigFile(loaded, lines) =>
      var d := match staging case Some(d) => d case None => map[];
      var h := FetchAll(d, ConfigUrls(loaded, lines), dryRun, net);
      Outcome(0, h.events, Unpack.UnpackReport(Some(h.dir), false, tools).dir)
  }

  /** A dry run with a config still creates the staging directory and still
      runs the unpacker over it (which may extract), but deletes nothing: every
      file that was staged is still there, unchanged. */
  lemma DryRunKeepsArchives(config: Config, staging: Option<map<string, Entry>>,
                            net: string -> Download, tools: Unpack.Tools, x: string)
    requires config.ConfigFile?
    requires staging.Some? && x in staging.value && staging.value[x].File?
    ensures var r := FetchOutcome(config, staging, true, net, tools);
            r.staging.Some? && x in r.staging.value && r.staging.value[x] == staging.value[x]
  {
    var urls := ConfigUrls(config.loaded, config.lines);
    DryRunNarrates(staging.value, urls, net);
    var d := staging.value;
    Unpack.ArchiveKept(d, SortedNames(d.Keys), false, tools, x);
  }

  /** A dry run is not free of writes: a staged archive that the library
      can unpack is extracted into a new directory named after its stem. */
  lemma DryRunStillExtracts(net: string -> Download, tools: Unpack.Tools, bytes: Bytes)
    requires tools.extract("a.zip").Unpacked?
    ensures var staged := map["a.zip" := File(bytes)];
            var r := FetchOutcome(ConfigFile(Loaded(NotAList), []), Some(staged), true, net, tools);
            r.staging.Some? && "a" in r.staging.value && "a" !in staged
  {
    var staged := map["a.zip" := File(bytes)];
    var names := SortedNames(staged.Keys);
    assert names == ["a.zip"] by {
      SortedListingUnique(["a.zip"], staged.Keys);
    }
    assert Stem("a.zip") == "a" by {
      var n := "a.zip";
      assert n[1] == '.' && n[2] == 'z' && n[3] == 'i' && n[4] == 'p';
      assert LastDot(n) == 1;
      assert n[..1] == "a";
    }
    Unpack.TargetsMade(staged, names, false, tools);
  }

  /** One configured archive, fetched for real into an empty staging
      directory: it is saved under its basename, unpacked into the
      directory named after its stem, and kept. */
  lemma FooArchiveInstalled(net: string -> Download, tools: Unpack.Tools, bytes: Bytes)
    requires net("https://example.com/mods/foo.zip") == Body(bytes)
    requires tools.extract("foo.zip").Unpacked?
    ensures var config := ConfigFile(Loaded(ItemList([Mapping(map["url" := "https://example.com/mods/foo.zip"])])), []);
            var r := FetchOutcome(config, None, false, net, tools);
            && r.events == [Saved("https://example.com/mods/foo.zip", "foo.zip")]
            && r.staging.Some?
            && "foo.zip" in r.staging.value && r.staging.value["foo.zip"] == File(bytes)
            && "foo" in r.staging.value && r.staging.value["foo"].Dir?
            && tools.extract("foo.zip").contents.Keys <= r.staging.value["foo"].children.Keys
  {
    var url := "https://example.com/mods/foo.zip";
    var staged := map["foo.zip" := File(bytes)];
    var contents := tools.extract("foo.zip").contents;
    FooFetched(net, bytes);
    FooUnpacked(tools, bytes);
    var config := ConfigFile(Loaded(ItemList([Mapping(map["url" := url])])), []);
    assert FetchOutcome(config, None, false, net, tools) ==
           Outcome(0, [Saved(url, "foo.zip")], Some(staged["foo" := Dir(contents)]));
  }

  lemma FooFetched(net: string -> Download, bytes: Bytes)
    requires net("https://example.com/mods/foo.zip") == Body(bytes)
    ensures var url := "https://example.com/mods/foo.zip";
            FetchAll(map[], ConfigUrls(Loaded(ItemList([Mapping(map["url" := url])])), []), false, net) ==
            Haul(map["foo.zip" := File(bytes)], [Saved(url, "foo.zip")])
  {
    var url := "https://example.com/mods/foo.zip";
    FooListed(url);
    assert [url][..0] == [];
    assert FetchAll(map[], [url], false, net) == FetchOne(Haul(map[], []), url, false, net);
    FooSaved(net, bytes);
  }

  /** The one download of that example succeeds and writes "foo.zip". */
  lemma FooSaved(net: string -> Download, bytes: Bytes)
    requires net("https://example.com/mods/foo.zip") == Body(bytes)
    ensures var url := "https://example.com/mods/foo.zip";
            FetchOne(Haul(map[], []), url, false, net) == Haul(map["foo.zip" := File(bytes)], [Saved(url, "foo.zip")])
  {
    var url := "https://example.com/mods/foo.zip";
    ExampleArchiveName();
    var d: map<string, Entry> := map[];
    assert Writable(d, "foo.zip");
    ReportSpec(d, url, false, net);
    WrittenSpec(d, url, false, net);
  }

  /** A one-item list with a "url" key yields that URL. */
  lemma FooListed(url: string)
    ensures ConfigUrls(Loaded(ItemList([Mapping(map["url" := url])])), []) == [url]
  {
    var items := [Mapping(map["url" := url])];
    assert items[..0] == [];
    assert ItemUrl(items[0]) == Some(url);
    assert Harvest(items, ItemUrl) == Harvest(items[..0], ItemUrl) + [url];
  }

  lemma FooUnpacked(tools: Unpack.Tools, bytes: Bytes)
    requires tools.extract("foo.zip").Unpacked?
    ensures var staged := map["foo.zip" := File(bytes)];
            Unpack.UnpackReport(Some(staged), false, tools).dir ==
            Some(staged["foo" := Dir(tools.extract("foo.zip").contents)])
  {
    var staged := map["foo.zip" := File(bytes)];
    var contents := tools.extract("foo.zip").contents;
    var names := SortedNames(staged.Keys);
    assert names == ["foo.zip"] by {
      SortedListingUnique(["foo.zip"], staged.Keys);
    }
    assert Stem("foo.zip") == "foo" by {
      var n := "foo.zip";
      assert n[3] == '.' && n[4] == 'z' && n[5] == 'i' && n[6] == 'p';
      assert LastDot(n) == 3;
      assert n[..3] == "foo";
    }
    assert names[..0] == [];
    var s0 := Unpack.Sweep(staged, [], []);
    assert Unpack.Sweeps(staged, names, false, tools) == Unpack.Step(s0, "foo.zip", false, tools);
    var made := staged["foo" := Dir(map[])];
    assert !Unpack.IsFile(staged, "foo");
    assert made["foo"].children + contents == contents;
    assert made["foo" := Dir(contents)] == staged["foo" := Dir(contents)];
    assert Unpack.Step(s0, "foo.zip", false, tools).dir == made["foo" := Dir(contents)];
  }

  lemma FetchAllNext(d0: map<string, Entry>, urls: seq<string>, i: nat, dryRun: bool, net: string -> Download)
    requires i < |urls|
    ensures FetchAll(d0, urls[..i + 1], dryRun, net) == FetchOne(FetchAll(d0, urls[..i], dryRun, net), urls[i], dryRun, net)
  {
    assert urls[..i + 1][..i] == urls[..i];
  }

  /** One iteration of the download loop: in a dry run only the narration;
      otherwise the request, the file written when it can be opened, and a
      success only for a whole body. */
  method FetchUrl(raw: Folder, url: string, dryRun: bool, net: string -> Download, events: seq<Event>)
    returns (events': seq<Event>)
    requires raw.entries.Some?
    modifies raw
    ensures raw.entries.Some?
    ensures Haul(raw.entries.value, events') == FetchOne(Haul(old(raw.entries.value), events), url, dryRun, net)
  {
    var name := BasenameFromUrl(url);
    if dryRun {
      return events + [WouldFetch(url, name)];
    }
    var dir := raw.entries.value;
    match net(url) {
      case Refused =>
        events' := events + [Failed(url)];
      case Body(bytes) =>
        if Writable(dir, name) {
          raw.entries := Some(dir[name := File(bytes)]);
          events' := events + [Saved(url, name)];
        } else {
          events' := events + [Failed(url)];
        }
      case Cut(partial) =>
        if Writable(dir, name) {
          raw.entries := Some(dir[name := File(partial)]);
        }
        events' := events + [Failed(url)];
    }
  }

  method FetchAndUnpack(raw: Folder, config: Config, dryRun: bool,
                        net: string -> Download, tools: Unpack.Tools)
    returns (raised: bool, status: int, events: seq<Event>)
    modifies raw
    ensures (if raised then Raised(raw.entries) else Outcome(status, events, raw.entries))
            == FetchOutcome(config, old(raw.entries), dryRun, net, tools)
  {
    if config.NoConfig? {
      return false, 2, [];
    }
    if config.Unreadable? {
      return true, 0, [];
    }
    var urls := ReadUrls(config.loaded, config.lines);
    if raw.entries.None? {
      raw.entries := Some(map[]);
    }
    ghost var d0 := raw.entries.value;
    events := [];
    for i := 0 to |urls|
      invariant raw.entries.Some?
      invariant Haul(raw.entries.value, events) == FetchAll(d0, urls[..i], dryRun, net)
    {
      FetchAllNext(d0, urls, i, dryRun, net);
      events := FetchUrl(raw, urls[i], dryRun, net, events);
    }
    assert urls[..|urls|] == urls;
    var _, _, _ := Unpack.UnpackAll(raw, false, tools);
    raised, status := false, 0;
  }
}
