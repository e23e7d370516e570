/** The domain-list builder: pull domains out of Clash rule lists (YAML
    `payload` entries and plain-text lines), drop those already on the direct
    list, render one dnsmasq `nftset` directive per remaining domain and append
    the result to the ad-blocking configuration.

    Files are inputs and outputs of the model: a map from file name to parsed
    YAML document, a map from file name to text, and the map of files the run
    writes. Downloading the lists is not modelled. */
module DnsmasqConfig {
  import opened Wrappers
  import opened PyStr
  import opened Yaml
  import opened RuleLine

  const YamlFiles: seq<string> :=
    ["Private_DIRECT.yaml", "WeChat.yaml", "Oracle.yaml", "Epic.yaml", "SteamCN.yaml", "Bing.yaml", "Microsoft.yaml"]
  const TxtFiles: seq<string> := ["icloud.txt", "apple.txt", "private.txt"]
  const DirectFile: string := "direct.txt"
  const AdFile: string := "anti-ad.conf"
  const BypassFile: string := "clash-core-bypass.conf"
  const MergedFile: string := "anti-ad-bypass.conf"

  /** The exceptions that end a run: `open` of a missing file
      (FileNotFoundError), `.get` on a document that is not a mapping
      (AttributeError), and `for` over a payload that cannot be iterated
      (TypeError). */
  datatype Error = FileNotFound(name: string) | NotAMapping(name: string) | NotIterable(name: string)

  // ---------------------------------------------------------------------
  // YAML payload entries

  predicate IsRuleEntry(s: string) {
    StartsWith(s, "DOMAIN,") || StartsWith(s, "DOMAIN-SUFFIX,")
  }

  /** The domain one payload entry contributes: the second comma-separated
      field of a `DOMAIN,` or `DOMAIN-SUFFIX,` rule, the rest of a `+.`
      wildcard, and nothing for any other entry, string or not. */
  function EntryDomain(entry: Value): (r: Option<string>)
    ensures r.Some? <==> entry.Str? && (IsRuleEntry(entry.s) || StartsWith(entry.s, "+."))
  {
    match entry
    case Str(s) =>
      if IsRuleEntry(s) then
        assert ',' in s by {
          if StartsWith(s, "DOMAIN,") { assert s[6] == "DOMAIN,"[6]; }
          else { assert s[13] == "DOMAIN-SUFFIX,"[13]; }
        }
        Some(Split(s, ',')[1])
      else if StartsWith(s, "+.") then Some(s[2..])
      else None
    case _ => None
  }

  /** A `DOMAIN,` or `DOMAIN-SUFFIX,` entry yields exactly the text between
      its first and its second comma (or the end of the entry): with `c` the
      first comma, the domain follows it, holds no comma, and is followed by a
      comma or the end. `DOMAIN-SUFFIX,a.com,no-resolve` yields `a.com`. */
  lemma RuleEntryDomain(s: string)
    requires IsRuleEntry(s)
    ensures var c := if StartsWith(s, "DOMAIN,") then 6 else 13;
      var d := EntryDomain(Str(s)).value;
      && s[c] == ','
      && StartsWith(s[c + 1..], d)
      && ',' !in d
      && (c + 1 + |d| == |s| || s[c + 1 + |d|] == ',')
  {
    var c := if StartsWith(s, "DOMAIN,") then 6 else 13;
    var prefix := if StartsWith(s, "DOMAIN,") then "DOMAIN," else "DOMAIN-SUFFIX,";
    assert s[..|prefix|] == prefix;
    forall k | 0 <= k < c ensures s[k] != ',' {
      assert s[k] == prefix[k];
    }
    SplitSecond(s, ',', c);
  }

  /** A `+.` entry yields everything after the `+.`. */
  lemma WildcardEntryDomain(s: string)
    requires StartsWith(s, "+.")
    ensures EntryDomain(Str(s)) == Some(s[2..])
  {
    assert !IsRuleEntry(s) by {
      assert s[0] == '+';
    }
  }

  /** The domains `f` yields for the items, added one item at a time, as the
      script's loops call `domain_list.add`. */
  function Gather<T>(items: seq<T>, f: T -> Option<string>): set<string>
  {
    if items == [] then {}
    else
      var last := f(items[|items| - 1]);
      Gather(items[..|items| - 1], f) + (if last.Some? then {last.value} else {})
  }

  /** Gathering one more item adds what that item yields. */
  lemma GatherStep<T>(items: seq<T>, k: nat, f: T -> Option<string>)
    requires k < |items|
    ensures Gather(items[..k + 1], f) ==
      Gather(items[..k], f) + (if f(items[k]).Some? then {f(items[k]).value} else {})
  {
    assert items[..k + 1][..k] == items[..k];
  }

  /** A domain is gathered exactly when some item yields it. */
  lemma {:induction false} GatherMembers<T>(items: seq<T>, f: T -> Option<string>, d: string)
    ensures d in Gather(items, f) <==> exists k :: 0 <= k < |items| && f(items[k]) == Some(d)
  {
    if items != [] {
      var init := items[..|items| - 1];
      GatherMembers(init, f, d);
      if d in Gather(init, f) {
        var k :| 0 <= k < |init| && f(init[k]) == Some(d);
        assert items[k] == init[k];
      }
      if k :| 0 <= k < |items| && f(items[k]) == Some(d) {
        if k < |init| {
          assert init[k] == items[k];
        }
      }
    }
  }

  /** Iterating over a string payload visits one-character strings, which are
      too short for any recognised prefix: such a payload yields nothing. */
  lemma CharsYieldNothing(s: string)
    ensures Gather(Chars(s), EntryDomain) == {}
  {
    var cs := Chars(s);
    forall d ensures d !in Gather(cs, EntryDomain) {
      GatherMembers(cs, EntryDomain, d);
    }
  }

  /** Iterating over a binary payload visits integers, which are not strings:
      such a payload yields nothing, and the run goes on. */
  lemma OctetsYieldNothing(b: seq<bv8>)
    ensures Gather(Octets(b), EntryDomain) == {}
  {
    var os := Octets(b);
    forall d ensures d !in Gather(os, EntryDomain) {
      GatherMembers(os, EntryDomain, d);
    }
  }

  /** The domains of the keys of a mapping payload (iterating a dict visits its keys). */
  function KeysDomains(keys: set<string>): set<string>
  {
    set k | k in keys && EntryDomain(Str(k)).Some? :: EntryDomain(Str(k)).value
  }

  /** The domains of a `payload` value, or None when `for` cannot iterate it. */
  function PayloadDomains(payload: Value): (r: Option<set<string>>)
    ensures r.None? <==> !(payload.List? || payload.Str? || payload.Bytes? || payload.Dict?)
  {
    match payload
    case List(items) => Some(Gather(items, EntryDomain))
    case Str(s) => Some(Gather(Chars(s), EntryDomain))
    case Bytes(b) => Some(Gather(Octets(b), EntryDomain))
    case Dict(m) => Some(KeysDomains(m.Keys))
    case _ => None
  }

  /** What one YAML file contributes: the domains of `data.get("payload", [])`,
      or the exception that stops the run. */
  function DocDomains(name: string, docs: map<string, Value>): (r: Result<set<string>, Error>)
    ensures name !in docs ==> r == Failure(FileNotFound(name))
    ensures name in docs && !docs[name].Dict? ==> r == Failure(NotAMapping(name))
    ensures name in docs && docs[name].Dict? && "payload" !in docs[name].fields ==> r == Success({})
  {
    if name !in docs then Failure(FileNotFound(name))
    else
      match docs[name]
      case Dict(m) =>
        (match PayloadDomains(Get(m, "payload", List([])))
         case Some(ds) => Success(ds)
         case None => Failure(NotIterable(name)))
      case _ => Failure(NotAMapping(name))
  }

  // ---------------------------------------------------------------------
  // Plain-text lists

  /** What one text file contributes, or the exception that stops the run. */
  function TxtDomains(name: string, texts: map<string, string>): (r: Result<set<string>, Error>)
    ensures r.Failure? <==> name !in texts
    ensures r.Success? ==> forall d :: d in r.value ==>
      d != [] && forall k :: 0 <= k < |d| ==> IsDomainChar(d[k])
  {
    if name !in texts then Failure(FileNotFound(name))
    else
      var lines := ReadLines(texts[name]);
      GatheredLineDomains(lines);
      Success(Gather(lines, LineDomain))
  }

  /** Every domain gathered from lines is a non-empty run of domain characters. */
  lemma GatheredLineDomains(lines: seq<string>)
    ensures forall d :: d in Gather(lines, LineDomain) ==>
      d != [] && forall k :: 0 <= k < |d| ==> IsDomainChar(d[k])
  {
    forall d | d in Gather(lines, LineDomain)
      ensures d != [] && forall k :: 0 <= k < |d| ==> IsDomainChar(d[k])
    {
      GatherMembers(lines, LineDomain, d);
      var j :| 0 <= j < |lines| && LineDomain(lines[j]) == Some(d);
    }
  }

  // ---------------------------------------------------------------------
  // extract_domains

  function YamlReader(docs: map<string, Value>): string -> Result<set<string>, Error>
  {
    name => DocDomains(name, docs)
  }

  function TxtReader(texts: map<string, string>): string -> Result<set<string>, Error>
  {
    name => TxtDomains(name, texts)
  }

  /** The union of what `read` gives for the files `names`, taken in order, or
      the first file's exception. */
  function Collect(names: seq<string>, read: string -> Result<set<string>, Error>): Result<set<string>, Error>
  {
    if names == [] then Success({})
    else
      match Collect(names[..|names| - 1], read)
      case Failure(e) => Failure(e)
      case Success(acc) =>
        (match read(names[|names| - 1])
         case Failure(e) => Failure(e)
         case Success(ds) => Success(acc + ds))
  }

  /** Collecting fails exactly when some file fails, and then with the
      exception of the first failing file. */
  lemma {:induction false} CollectFailure(names: seq<string>, read: string -> Result<set<string>, Error>)
    ensures Collect(names, read).Failure? <==> exists i :: 0 <= i < |names| && read(names[i]).Failure?
    ensures Collect(names, read).Failure? ==>
      exists i :: && 0 <= i < |names| && read(names[i]) == Collect(names, read)
                  && forall j :: 0 <= j < i ==> read(names[j]).Success?
  {
    if names != [] {
      var init := names[..|names| - 1];
      CollectFailure(init, read);
      assert forall i :: 0 <= i < |init| ==> names[i] == init[i];
    }
  }

  /** A completed collection holds exactly the domains some file contributes. */
  lemma {:induction false} CollectMembers(names: seq<string>, read: string -> Result<set<string>, Error>, d: string)
    requires Collect(names, read).Success?
    ensures d in Collect(names, read).value <==>
      exists i :: 0 <= i < |names| && read(names[i]).Success? && d in read(names[i]).value
  {
    if names != [] {
      var init := names[..|names| - 1];
      CollectMembers(init, read, d);
      assert forall i :: 0 <= i < |init| ==> names[i] == init[i];
    }
  }

  /** `extract_domains`, as a function of the files it reads: the YAML files
      first, then the text files. */
  function ExtractSpec(docs: map<string, Value>, texts: map<string, string>): Result<set<string>, Error>
  {
    ExtractFrom(YamlFiles, TxtFiles, docs, texts)
  }

  /** Extraction from the YAML files `ys`, then the text files `ts`. */
  function ExtractFrom(ys: seq<string>, ts: seq<string>, docs: map<string, Value>, texts: map<string, string>): Result<set<string>, Error>
  {
    match Collect(ys, YamlReader(docs))
    case Failure(e) => Failure(e)
    case Success(fromYaml) =>
      (match Collect(ts, TxtReader(texts))
       case Failure(e) => Failure(e)
       case Success(fromTxt) => Success(fromYaml + fromTxt))
  }

  /** A failure partway through a list of files is the failure of the whole list. */
  lemma {:induction false} CollectStopsAtFailure(names: seq<string>, n: nat, read: string -> Result<set<string>, Error>)
    requires n <= |names|
    requires Collect(names[..n], read).Failure?
    ensures Collect(names, read) == Collect(names[..n], read)
    decreases |names| - n
  {
    if n < |names| {
      assert names[..n + 1][..n] == names[..n];
      CollectStopsAtFailure(names, n + 1, read);
    } else {
      assert names[..n] == names;
    }
  }

  /** The inner loop over payload entries: `domain_list.add` for each entry
      that yields a domain. */
  method AddEntries(domains: set<string>, entries: seq<Value>) returns (r: set<string>)
    ensures r == domains + Gather(entries, EntryDomain)
  {
    r := domains;
    for k := 0 to |entries|
      invariant r == domains + Gather(entries[..k], EntryDomain)
    {
      var found := EntryDomain(entries[k]);
      GatherStep(entries, k, EntryDomain);
      if found.Some? {
        r := r + {found.value};
      }
    }
    assert entries[..|entries|] == entries;
  }

  /** The inner loop when the payload is a mapping: Python visits its keys. */
  method AddKeys(domains: set<string>, keys: set<string>) returns (r: set<string>)
    ensures r == domains + KeysDomains(keys)
  {
    r := domains;
    var todo := keys;
    while todo != {}
      invariant todo <= keys
      invariant r == domains + KeysDomains(keys - todo)
      decreases |todo|
    {
      var k :| k in todo;
      match EntryDomain(Str(k)) {
        case Some(d) => r := r + {d};
        case None =>
      }
      todo := todo - {k};
    }
  }

  /** The inner loop over the lines of a text file. */
  method AddLines(domains: set<string>, lines: seq<string>) returns (r: set<string>)
    ensures r == domains + Gather(lines, LineDomain)
  {
    r := domains;
    for k := 0 to |lines|
      invariant r == domains + Gather(lines[..k], LineDomain)
    {
      var found := LineDomain(lines[k]);
      GatherStep(lines, k, LineDomain);
      if found.Some? {
        r := r + {found.value};
      }
    }
    assert lines[..|lines|] == lines;
  }

  /** One YAML file of the outer loop: its payload's domains added to
      `domains`, or the exception. */
  method AddYamlFile(domains: set<string>, name: string, docs: map<string, Value>) returns (r: Result<set<string>, Error>)
    ensures r.Failure? <==> DocDomains(name, docs).Failure?
    ensures r.Failure? ==> r == DocDomains(name, docs)
    ensures r.Success? ==> r.value == domains + DocDomains(name, docs).value
  {
    if name !in docs {
      return Failure(FileNotFound(name));
    }
    match docs[name] {
      case Dict(m) =>
        var payload := Get(m, "payload", List([]));
        match payload {
          case List(items) =>
            var ds := AddEntries(domains, items);
            return Success(ds);
          case Str(s) =>
            var ds := AddEntries(domains, Chars(s));
            return Success(ds);
          case Bytes(b) =>
            var ds := AddEntries(domains, Octets(b));
            return Success(ds);
          case Dict(fields) =>
            var ds := AddKeys(domains, fields.Keys);
            return Success(ds);
          case _ =>
            return Failure(NotIterable(name));
        }
      case _ =>
        return Failure(NotAMapping(name));
    }
  }

  /** The first loop of `extract_domains`, over the YAML files `names`. */
  method AddYamlFiles(names: seq<string>, docs: map<string, Value>) returns (r: Result<set<string>, Error>)
    ensures r == Collect(names, YamlReader(docs))
  {
    var domainList: set<string> := {};
    var read := YamlReader(docs);
    for i := 0 to |names|
      invariant Collect(names[..i], read) == Success(domainList)
    {
      assert names[..i + 1][..i] == names[..i];
      var step := AddYamlFile(domainList, names[i], docs);
      assert read(names[i]) == DocDomains(names[i], docs);
      if step.Failure? {
        CollectStopsAtFailure(names, i + 1, read);
        return step;
      }
      domainList := step.value;
    }
    assert names[..|names|] == names;
    return Success(domainList);
  }

  /** The second loop of `extract_domains`, over the text files `names`,
      adding to the set the first loop filled. */
  method AddTxtFiles(domains: set<string>, names: seq<string>, texts: map<string, string>) returns (r: Result<set<string>, Error>)
    ensures Collect(names, TxtReader(texts)).Failure? ==> r == Collect(names, TxtReader(texts))
    ensures Collect(names, TxtReader(texts)).Success? ==> r == Success(domains + Collect(names, TxtReader(texts)).value)
  {
    var domainList := domains;
    var fromTxt: set<string> := {};
    var read := TxtReader(texts);
    for i := 0 to |names|
      invariant Collect(names[..i], read) == Success(fromTxt)
      invariant domainList == domains + fromTxt
    {
      var name := names[i];
      assert names[..i + 1][..i] == names[..i];
      assert read(name) == TxtDomains(name, texts);
      if name !in texts {
        CollectStopsAtFailure(names, i + 1, read);
        return Failure(FileNotFound(name));
      }
      var lines := ReadLines(texts[name]);
      domainList := AddLines(domainList, lines);
      fromTxt := fromTxt + Gather(lines, LineDomain);
    }
    assert names[..|names|] == names;
    return Success(domainList);
  }

  /** `extract_domains`: one set, filled from the YAML files, then from the
      text files. */
  method ExtractDomains(docs: map<string, Value>, texts: map<string, string>) returns (r: Result<set<string>, Error>)
    ensures r == ExtractSpec(docs, texts)
  {
    r := AddYamlFiles(YamlFiles, docs);
    if r.Success? {
      r := AddTxtFiles(r.value, TxtFiles, texts);
    }
  }

  /** A completed extraction holds exactly the domains some YAML file or some
      text file contributes. */
  lemma ExtractMembers(ys: seq<string>, ts: seq<string>, docs: map<string, Value>, texts: map<string, string>, d: string)
    requires ExtractFrom(ys, ts, docs, texts).Success?
    ensures d in ExtractFrom(ys, ts, docs, texts).value <==>
      (exists i :: 0 <= i < |ys| && DocDomains(ys[i], docs).Success? && d in DocDomains(ys[i], docs).value) ||
      (exists i :: 0 <= i < |ts| && TxtDomains(ts[i], texts).Success? && d in TxtDomains(ts[i], texts).value)
  {
    var yaml := YamlReader(docs);
    var txt := TxtReader(texts);
    CollectMembers(ys, yaml, d);
    CollectMembers(ts, txt, d);
    assert forall n :: yaml(n) == DocDomains(n, docs);
    assert forall n :: txt(n) == TxtDomains(n, texts);
  }

  /** Extraction fails exactly when some listed file fails, with the exception
      of the first failing file, YAML files first. */
  lemma ExtractFailure(ys: seq<string>, ts: seq<string>, docs: map<string, Value>, texts: map<string, string>)
    ensures ExtractFrom(ys, ts, docs, texts).Failure? <==>
      (exists i :: 0 <= i < |ys| && DocDomains(ys[i], docs).Failure?) ||
      (exists i :: 0 <= i < |ts| && TxtDomains(ts[i], texts).Failure?)
    ensures ExtractFrom(ys, ts, docs, texts).Failure? ==>
      || (exists i :: && 0 <= i < |ys| && DocDomains(ys[i], docs) == ExtractFrom(ys, ts, docs, texts)
                      && forall j :: 0 <= j < i ==> DocDomains(ys[j], docs).Success?)
      || (&& (forall j :: 0 <= j < |ys| ==> DocDomains(ys[j], docs).Success?)
          && exists i :: && 0 <= i < |ts| && TxtDomains(ts[i], texts) == ExtractFrom(ys, ts, docs, texts)
                         && forall j :: 0 <= j < i ==> TxtDomains(ts[j], texts).Success?)
  {
    var yaml := YamlReader(docs);
    var txt := TxtReader(texts);
    CollectFailure(ys, yaml);
    CollectFailure(ts, txt);
    assert forall n :: yaml(n) == DocDomains(n, docs);
    assert forall n :: txt(n) == TxtDomains(n, texts);
  }

  // ---------------------------------------------------------------------
  // filter_domains

  /** A line of the direct list names a domain when it is not blank and the
      line as read, before stripping, does not start with '#'. */
  predicate IsDirectLine(line: string) {
    Strip(line) != [] && !StartsWith(line, "#")
  }

  /** Some line of the direct list names `d`. */
  ghost predicate OnDirectList(lines: seq<string>, d: string) {
    exists k :: 0 <= k < |lines| && IsDirectLine(lines[k]) && Strip(lines[k]) == d
  }

  /** The set comprehension of `filter_domains`. */
  function DirectDomains(lines: seq<string>): (r: set<string>)
    ensures forall d :: d in r <==> OnDirectList(lines, d)
  {
    set k | 0 <= k < |lines| && IsDirectLine(lines[k]) :: Strip(lines[k])
  }

  /** `filter_domains`: a domain survives exactly when it was extracted and no
      line of the direct list names it; the comparison is exact, with no case
      folding. */
  function FilterDomains(domains: set<string>, directText: string): (r: set<string>)
    ensures r <= domains
    ensures forall d :: d in r <==> d in domains && !OnDirectList(ReadLines(directText), d)
  {
    domains - DirectDomains(ReadLines(directText))
  }

  /** A direct list of one listed line names exactly its stripped text. */
  lemma OnSingleLine(line: string, d: string)
    requires IsDirectLine(line)
    ensures OnDirectList([line], d) <==> d == Strip(line)
  {
    if d == Strip(line) {
      assert [line][0] == line;
    }
  }

  /** An indented comment line of a text list yields nothing. */
  lemma IndentedCommentSkipped(ws: char, t: string)
    requires IsSpace(ws) && t != [] && t[0] == '#' && !IsSpace(t[|t| - 1])
    ensures LineDomain([ws] + t) == None
  {
    assert Strip([ws] + t) == t by { StripIndented(ws, t); }
    assert StartsWith(t, "#") by { assert t[..1] == "#"; }
  }

  /** The direct list is tested for '#' before stripping, unlike the text
      lists: the same indented comment line that a text list skips removes
      the domain spelt by its stripped text. */
  lemma IndentedCommentFilters(ws: char, t: string)
    requires IsSpace(ws) && ws != '\n' && t != [] && t[0] == '#' && !IsSpace(t[|t| - 1]) && '\n' !in t
    ensures FilterDomains({t}, [ws] + t) == {}
  {
    var line := [ws] + t;
    StripIndented(ws, t);
    assert ReadLines(line) == [line] by {
      assert '\n' !in line;
      assert FindFrom(line, '\n', 0) == -1;
    }
    assert IsDirectLine(line) by {
      assert line[0] != '#';
    }
    OnSingleLine(line, t);
  }

  // ---------------------------------------------------------------------
  // build_bypass_config

  const DirectivePrefix: string := "nftset=/"
  const DirectiveSuffix: string := "/4#inet#fw4#china_ip_route\n"

  /** The directive `nftset=/<d>/4#inet#fw4#china_ip_route` for one domain,
      with its newline; `DirectiveDomain` reads the domain back, so distinct
      domains give distinct lines. */
  function Directive(d: string): (line: string)
    ensures DirectiveDomain(line) == Some(d)
  {
    var line := DirectivePrefix + d + DirectiveSuffix;
    assert line[|DirectivePrefix|..|line| - |DirectiveSuffix|] == d;
    line
  }

  /** The domain of a directive line, or None for any other line. */
  function DirectiveDomain(line: string): Option<string>
  {
    if |DirectivePrefix| + |DirectiveSuffix| <= |line| && StartsWith(line, DirectivePrefix) && EndsWith(line, DirectiveSuffix)
    then Some(line[|DirectivePrefix|..|line| - |DirectiveSuffix|])
    else None
  }

  /** The text written by writing the directives of `order` one after another. */
  function Render(order: seq<string>): string
  {
    if order == [] then [] else Render(order[..|order| - 1]) + Directive(order[|order| - 1])
  }

  /** `order` lists every domain of `domains` exactly once. */
  ghost predicate IsEnumeration(order: seq<string>, domains: set<string>) {
    && |order| == |domains|
    && (forall d :: d in order <==> d in domains)
    && (forall i, j :: 0 <= i < j < |order| ==> order[i] != order[j])
  }

  /** `content` is the directives of `domains`, one each, in some order. */
  ghost predicate RendersSet(content: string, domains: set<string>) {
    exists order :: IsEnumeration(order, domains) && content == Render(order)
  }

  /** `build_bypass_config`: one directive per domain, written in the order
      the set is iterated, which the model leaves open. */
  method BuildBypassConfig(domains: set<string>) returns (content: string, order: seq<string>)
    ensures IsEnumeration(order, domains)
    ensures content == Render(order)
  {
    content, order := [], [];
    var remaining := domains;
    while remaining != {}
      invariant remaining <= domains
      invariant forall d :: d in order <==> d in domains - remaining
      invariant forall i, j :: 0 <= i < j < |order| ==> order[i] != order[j]
      invariant |order| + |remaining| == |domains|
      invariant content == Render(order)
      decreases |remaining|
    {
      var d :| d in remaining;
      assert d !in order;
      assert (order + [d])[..|order|] == order;
      assert forall i, j :: 0 <= i < j < |order| + 1 ==> (order + [d])[i] != (order + [d])[j] by {
        forall i, j | 0 <= i < j < |order| + 1 ensures (order + [d])[i] != (order + [d])[j] {
          if j == |order| { assert order[i] in order; }
        }
      }
      content := content + Directive(d);
      order := order + [d];
      remaining := remaining - {d};
    }
  }

  /** A directive for a domain without a newline is one line of text. */
  lemma DirectiveIsOneLine(d: string)
    requires '\n' !in d
    ensures ReadLines(Directive(d)) == [Directive(d)]
  {
    var line := Directive(d);
    assert line[..|line| - 1] == DirectivePrefix + d + DirectiveSuffix[..|DirectiveSuffix| - 1];
    assert '\n' !in line[..|line| - 1];
    OneLine(line);
  }

  /** Read back line by line, the rendered text is exactly the directives, one
      per line, provided no domain holds a newline. */
  lemma {:induction false} RenderLines(order: seq<string>)
    requires forall k :: 0 <= k < |order| ==> '\n' !in order[k]
    ensures ReadLines(Render(order)) == Directives(order)
    ensures Render(order) == [] || Render(order)[|Render(order)| - 1] == '\n'
  {
    if order != [] {
      var init := order[..|order| - 1];
      var d := order[|order| - 1];
      RenderLines(init);
      DirectiveIsOneLine(d);
      ReadLinesAppend(Render(init), Directive(d));
    }
  }

  /** The directive of each domain of `order`, in order. */
  function Directives(order: seq<string>): (r: seq<string>)
    ensures |r| == |order|
    ensures forall k :: 0 <= k < |order| ==> r[k] == Directive(order[k])
  {
    if order == [] then [] else Directives(order[..|order| - 1]) + [Directive(order[|order| - 1])]
  }

  /** The lines of the bypass file are exactly one directive per filtered
      domain. */
  lemma BypassLines(content: string, domains: set<string>)
    requires RendersSet(content, domains)
    requires forall d :: d in domains ==> '\n' !in d
    ensures |ReadLines(content)| == |domains|
    ensures forall line :: line in ReadLines(content) <==> exists d :: d in domains && line == Directive(d)
  {
    var order :| IsEnumeration(order, domains) && content == Render(order);
    assert ReadLines(content) == Directives(order) by {
      forall k | 0 <= k < |order| ensures '\n' !in order[k] {
        assert order[k] in order;
      }
      RenderLines(order);
    }
    EnumerationDirectives(order, domains);
  }

  /** The directives of an enumeration are one per domain of the set. */
  lemma EnumerationDirectives(order: seq<string>, domains: set<string>)
    requires IsEnumeration(order, domains)
    ensures forall line :: line in Directives(order) <==> exists d :: d in domains && line == Directive(d)
  {
    var lines := Directives(order);
    forall line | line in lines ensures exists d :: d in domains && line == Directive(d) {
      var k :| 0 <= k < |lines| && lines[k] == line;
      assert order[k] in order;
    }
    forall d | d in domains ensures Directive(d) in lines {
      assert d in order;
      var k :| 0 <= k < |order| && order[k] == d;
      assert lines[k] == Directive(d);
    }
  }

  // ---------------------------------------------------------------------
  // merge_configs

  /** `merge_configs`: the ad-blocking rules, one '\n', then the directives. */
  function MergeConfigs(ad: string, bypass: string): (merged: string)
    ensures |merged| == |ad| + 1 + |bypass|
    ensures merged[..|ad|] == ad && merged[|ad|] == '\n' && merged[|ad| + 1..] == bypass
  {
    ad + "\n" + bypass
  }

  /** When the ad-blocking text ends its last line (or is empty), the merged
      file reads as its lines, one blank line, then the directive lines. */
  lemma MergedLines(ad: string, bypass: string)
    requires ad == [] || ad[|ad| - 1] == '\n'
    ensures ReadLines(MergeConfigs(ad, bypass)) == ReadLines(ad) + ["\n"] + ReadLines(bypass)
  {
    JoinedLines(ad, "\n", bypass);
  }

  /** The lines of `ad + nl + bypass`, for `nl` a lone newline. The newline is
      a parameter rather than the literal `"\n"` so that the solver reasons about
      it through the `requires` alone, which keeps this proof small. */
  lemma JoinedLines(ad: string, nl: string, bypass: string)
    requires ad == [] || ad[|ad| - 1] == '\n'
    requires |nl| == 1 && nl[0] == '\n'
    ensures ReadLines(ad + nl + bypass) == ReadLines(ad) + [nl] + ReadLines(bypass)
  {
    var tail := nl + bypass;
    assert ad + nl + bypass == ad + tail;
    assert ReadLines(ad + tail) == ReadLines(ad) + ReadLines(tail) by {
      ReadLinesAppend(ad, tail);
    }
    assert ReadLines(tail) == [nl] + ReadLines(bypass) by {
      ReadLinesStep(tail, 0);
      assert tail[..1] == nl;
      assert tail[1..] == bypass;
    }
    var before, after := ReadLines(ad), ReadLines(bypass);
    assert before + ([nl] + after) == before + [nl] + after;
  }

  // ---------------------------------------------------------------------
  // main (without the downloads)

  /** The writing half of a run: the bypass file from the filtered domains,
      then the merged file when the ad-blocking rules are present. */
  method WriteOutputs(filtered: set<string>, texts: map<string, string>) returns (written: map<string, string>, err: Option<Error>)
    ensures BypassFile in written && RendersSet(written[BypassFile], filtered)
    ensures AdFile !in texts ==> written.Keys == {BypassFile} && err == Some(FileNotFound(AdFile))
    ensures AdFile in texts ==>
      && written.Keys == {BypassFile, MergedFile} && err == None
      && written[MergedFile] == MergeConfigs(texts[AdFile], written[BypassFile])
  {
    var bypass, order := BuildBypassConfig(filtered);
    assert RendersSet(bypass, filtered) by {
      assert IsEnumeration(order, filtered) && bypass == Render(order);
    }
    written := map[BypassFile := bypass];
    if AdFile !in texts {
      return written, Some(FileNotFound(AdFile));
    }
    var merged := MergeConfigs(texts[AdFile], bypass);
    assert BypassFile != MergedFile by {
      assert BypassFile[0] != MergedFile[0];
    }
    written := written[MergedFile := merged];
    err := None;
  }

  /** One run after the downloads: extract, filter, write the bypass file,
      then write the merged file. `written` holds the files the run writes;
      a missing input stops the run where Python would raise. */
  method Run(docs: map<string, Value>, texts: map<string, string>) returns (written: map<string, string>, err: Option<Error>)
    ensures var extracted := ExtractSpec(docs, texts);
      && (extracted.Failure? ==> written == map[] && err == Some(extracted.error))
      && (extracted.Success? && DirectFile !in texts ==> written == map[] && err == Some(FileNotFound(DirectFile)))
      && (extracted.Success? && DirectFile in texts ==>
        && BypassFile in written
        && RendersSet(written[BypassFile], FilterDomains(extracted.value, texts[DirectFile]))
        && (AdFile !in texts ==> written.Keys == {BypassFile} && err == Some(FileNotFound(AdFile)))
        && (AdFile in texts ==>
              && written.Keys == {BypassFile, MergedFile} && err == None
              && written[MergedFile] == MergeConfigs(texts[AdFile], written[BypassFile])))
  {
    var extracted := ExtractDomains(docs, texts);
    if extracted.Failure? {
      return map[], Some(extracted.error);
    }
    if DirectFile !in texts {
      return map[], Some(FileNotFound(DirectFile));
    }
    var filtered := FilterDomains(extracted.value, texts[DirectFile]);
    written, err := WriteOutputs(filtered, texts);
  }

  // ---------------------------------------------------------------------
  // worked example

  /** A prefix of a comma-free text that ends at a comma or at the end of
      the text is the whole text. */
  lemma WholeWithoutComma(t: string, d: string)
    requires StartsWith(t, d) && ',' !in t
    requires |d| == |t| || t[|d|] == ','
    ensures d == t
  {
  }

  /** A rule domain holding a newline is taken whole, and its directive is
      then written over two lines or more. */
  lemma NewlineDomainSplits(d: string, j: nat)
    requires ',' !in d && j < |d| && d[j] == '\n'
    ensures EntryDomain(Str("DOMAIN," + d)) == Some(d)
    ensures |ReadLines(Directive(d))| >= 2
  {
    DomainRule(d);
    var line := Directive(d);
    assert line == DirectivePrefix + d + DirectiveSuffix;
    assert line[|DirectivePrefix| + j] == '\n';
    InnerNewlineSplits(line, |DirectivePrefix| + j);
  }

  /** `DOMAIN,<d>` without further options yields `d`. */
  lemma DomainRule(d: string)
    requires ',' !in d
    ensures EntryDomain(Str("DOMAIN," + d)) == Some(d)
  {
    var s := "DOMAIN," + d;
    assert s[..7] == "DOMAIN,";
    RuleEntryDomain(s);
    assert s[7..] == d;
    WholeWithoutComma(d, EntryDomain(Str(s)).value);
  }

  /** `DOMAIN-SUFFIX,<d>` without further options yields `d`. */
  lemma DomainSuffixRule(d: string)
    requires ',' !in d
    ensures EntryDomain(Str("DOMAIN-SUFFIX," + d)) == Some(d)
  {
    var s := "DOMAIN-SUFFIX," + d;
    assert s[..14] == "DOMAIN-SUFFIX,";
    assert !StartsWith(s, "DOMAIN,") by { assert s[6] == '-'; }
    RuleEntryDomain(s);
    assert s[14..] == d;
    WholeWithoutComma(d, EntryDomain(Str(s)).value);
  }

  /** A payload with a `DOMAIN` rule for `a`, a `DOMAIN-SUFFIX` rule for `b`
      and an address rule. */
  function ExamplePayload(a: string, b: string): seq<Value>
  {
    [Str("DOMAIN," + a), Str("DOMAIN-SUFFIX," + b), Str("IP-CIDR,10.0.0.0/8")]
  }

  /** An address rule (`IP-CIDR,…`) yields nothing. */
  lemma AddressRuleIgnored(s: string)
    requires StartsWith(s, "IP-CIDR,")
    ensures EntryDomain(Str(s)) == None
  {
    assert s[0] == 'I';
  }

  /** The address rule of the example payload yields nothing. */
  lemma ExampleAddressIgnored()
    ensures EntryDomain(Str("IP-CIDR,10.0.0.0/8")) == None
  {
    var c := "IP-CIDR,10.0.0.0/8";
    assert c[..8] == "IP-CIDR,";
    AddressRuleIgnored(c);
  }

  /** The two domain rules yield their domains; the address rule yields nothing. */
  lemma ExamplePayloadDomains(a: string, b: string)
    requires ',' !in a && ',' !in b
    ensures Gather(ExamplePayload(a, b), EntryDomain) == {a, b}
  {
    DomainRule(a);
    DomainSuffixRule(b);
    ExampleAddressIgnored();
    ThreeEntries(ExamplePayload(a, b), a, b);
  }

  /** Three entries of which the first two yield `a` and `b` and the last nothing. */
  lemma ThreeEntries(p: seq<Value>, a: string, b: string)
    requires |p| == 3
    requires EntryDomain(p[0]) == Some(a) && EntryDomain(p[1]) == Some(b) && EntryDomain(p[2]) == None
    ensures Gather(p, EntryDomain) == {a, b}
  {
    assert Gather(p[..0], EntryDomain) == {} by {
      assert p[..0] == [];
    }
    assert Gather(p[..1], EntryDomain) == {a} by {
      GatherStep(p, 0, EntryDomain);
    }
    assert Gather(p[..2], EntryDomain) == {a, b} by {
      GatherStep(p, 1, EntryDomain);
    }
    assert Gather(p[..3], EntryDomain) == {a, b} by {
      GatherStep(p, 2, EntryDomain);
    }
    assert p[..3] == p;
  }

  /** An empty direct list removes nothing. */
  lemma EmptyDirectList(domains: set<string>)
    ensures FilterDomains(domains, "") == domains
  {
    assert ReadLines("") == [];
  }

  /** With an empty direct list, the bypass file holds exactly two lines:
      the directives for the two domains, in either order. */
  lemma ExampleBypass(a: string, b: string, content: string)
    requires ',' !in a && ',' !in b && '\n' !in a && '\n' !in b && a != b
    requires RendersSet(content, FilterDomains(Gather(ExamplePayload(a, b), EntryDomain), ""))
    ensures |ReadLines(content)| == 2
    ensures forall line :: line in ReadLines(content) <==> line == Directive(a) || line == Directive(b)
  {
    ExamplePayloadDomains(a, b);
    EmptyDirectList({a, b});
    BypassLines(content, {a, b});
  }

  /** A direct list of one plain line removes exactly the domain on it. */
  lemma SingleDirectLine(domains: set<string>, t: string)
    requires t != [] && !IsSpace(t[0]) && !IsSpace(t[|t| - 1]) && t[0] != '#' && '\n' !in t
    ensures FilterDomains(domains, t + "\n") == domains - {t}
  {
    PlainDirectLine(domains, t, '\n');
  }

  /** `SingleDirectLine` for a line ended by `nl`, the newline character. As in
      `JoinedLines`, the newline is a parameter so that the solver reasons about
      it through the `requires` alone, which keeps this proof small. */
  lemma PlainDirectLine(domains: set<string>, t: string, nl: char)
    requires nl == '\n'
    requires t != [] && !IsSpace(t[0]) && !IsSpace(t[|t| - 1]) && t[0] != '#' && nl !in t
    ensures FilterDomains(domains, t + [nl]) == domains - {t}
  {
    var line := t + [nl];
    assert ReadLines(line) == [line] by {
      assert line[..|line| - 1] == t;
      OneLine(line);
    }
    assert DirectDomains([line]) == {t} by {
      assert Strip(line) == t by {
        StripLine(t, nl);
      }
      assert !StartsWith(line, "#") by {
        assert line[0] == t[0];
      }
      OneDirectLine(line);
    }
  }

  /** A one-line direct list whose line is listed names exactly its stripped text. */
  lemma OneDirectLine(line: string)
    requires IsDirectLine(line)
    ensures DirectDomains([line]) == {Strip(line)}
  {
    forall d ensures d in DirectDomains([line]) <==> d == Strip(line) {
      OnSingleLine(line, d);
    }
  }

  /** A direct list naming `a` keeps it out of the bypass set. */
  lemma ExampleDirectRemoves(a: string, b: string)
    requires ',' !in a && ',' !in b && '\n' !in a && a != b
    requires a != [] && !IsSpace(a[0]) && !IsSpace(a[|a| - 1]) && a[0] != '#'
    ensures FilterDomains(Gather(ExamplePayload(a, b), EntryDomain), a + "\n") == {b}
  {
    var found := Gather(ExamplePayload(a, b), EntryDomain);
    assert found == {a, b} by {
      ExamplePayloadDomains(a, b);
    }
    assert FilterDomains({a, b}, a + "\n") == {a, b} - {a} by {
      SingleDirectLine({a, b}, a);
    }
    assert {a, b} - {a} == {b};
  }
}
