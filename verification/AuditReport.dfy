/** The findings that the audit tool reads out of a pnpm report
    (sub2api/tools/check_pnpm_audit_exceptions.py, `pick_advisory_id` and `iter_vulns`). */
module AuditReport {
  import opened Wrappers

  /** A decoded JSON value. A number keeps its text and whether it is zero; an object keeps its entries in
      document order, under distinct keys. */
  datatype Json =
    | JNull
    | JBool(b: bool)
    | JNum(text: string, zero: bool)
    | JStr(s: string)
    | JArr(items: seq<Json>)
    | JObj(entries: seq<(string, Json)>)

  /** Python's truth value. */
  predicate Truthy(j: Json) {
    match j
    case JNull => false
    case JBool(b) => b
    case JNum(_, zero) => !zero
    case JStr(s) => s != ""
    case JArr(items) => items != []
    case JObj(entries) => entries != []
  }

  /** `a or b`. */
  function Or(a: Json, b: Json): Json {
    if Truthy(a) then a else b
  }

  function Lookup(entries: seq<(string, Json)>, key: string): Json {
    if entries == [] then JNull
    else if entries[0].0 == key then entries[0].1
    else Lookup(entries[1..], key)
  }

  /** `j.get(key)` on an object. */
  function Get(j: Json, key: string): Json
    requires j.JObj?
  {
    Lookup(j.entries, key)
  }

  datatype Finding = Finding(name: Json, severity: Json, advisory: Json)

  /** Python's `str`; `show` says what it does to a value that is not a string. */
  function Str(show: Json -> string, j: Json): string {
    if j.JStr? then j.s else show(j)
  }

  /** `(cves or [None])[0]`; None when indexing raises. */
  function FirstCve(cves: Json): Option<Json> {
    if !Truthy(cves) then Some(JNull)
    else
      match cves
      case JArr(items) => Some(items[0])
      case JStr(s) => Some(JStr(s[..1]))
      case _ => None
  }

  /** `pick_advisory_id`; None when it raises. */
  function PickAdvisoryId(show: Json -> string, a: Json): Option<Json>
    requires a.JObj?
  {
    var direct := Or(Get(a, "github_advisory_id"), Get(a, "url"));
    if Truthy(direct) then Some(direct)
    else
      match FirstCve(Get(a, "cves"))
      case None => None
      case Some(cve) =>
        var id := if Get(a, "id") != JNull then JStr(Str(show, Get(a, "id"))) else JNull;
        Some(Or(cve, Or(id, Or(Get(a, "title"), Or(Get(a, "advisory"), Get(a, "overview"))))))
  }

  /** The identifiers of an advisory record in the order in which they are preferred: the GHSA number, the URL,
      the first CVE, the numeric id, and only then a title or a text. */
  const PREFERRED := ["github_advisory_id", "url", "cves", "id", "title", "advisory", "overview"]

  /** Whether a field settles the identifier, or raises, given that no field before it does. */
  predicate Settles(show: Json -> string, a: Json, key: string) {
    && a.JObj?
    && if key == "cves" then FirstCve(Get(a, key)) == None || Truthy(FirstCve(Get(a, key)).value)
       else if key == "id" then Get(a, key) != JNull && Str(show, Get(a, key)) != ""
       else Truthy(Get(a, key))
  }

  /** Two objects have the same fields down to the first that settles the identifier of the one. */
  ghost predicate SameDownTo(settles: string -> bool, a: Json, b: Json, keys: seq<string>)
    requires a.JObj? && b.JObj?
  {
    exists n: nat :: SameFirst(settles, a, b, keys, n)
  }

  ghost predicate SameFirst(settles: string -> bool, a: Json, b: Json, keys: seq<string>, n: nat)
    requires a.JObj? && b.JObj?
  {
    && n <= |keys| && (forall i :: 0 <= i < n ==> Get(a, keys[i]) == Get(b, keys[i]))
    && (n == |keys| || (n > 0 && settles(keys[n - 1])))
  }

  /** The identifier does not depend on any field behind the one that settles it. */
  lemma {:induction false} StableAdvisoryId(show: Json -> string, a: Json, b: Json)
    requires a.JObj? && b.JObj? && SameDownTo(key => Settles(show, a, key), a, b, PREFERRED)
    ensures PickAdvisoryId(show, a) == PickAdvisoryId(show, b)
  {
    var n: nat :| SameFirst(key => Settles(show, a, key), a, b, PREFERRED, n);
    assert n > 0 ==> Get(a, PREFERRED[0]) == Get(b, PREFERRED[0]);
    assert n > 1 ==> Get(a, PREFERRED[1]) == Get(b, PREFERRED[1]);
    assert n > 2 ==> Get(a, PREFERRED[2]) == Get(b, PREFERRED[2]);
    assert n > 3 ==> Get(a, PREFERRED[3]) == Get(b, PREFERRED[3]);
    assert n > 4 ==> Get(a, PREFERRED[4]) == Get(b, PREFERRED[4]);
    assert n > 5 ==> Get(a, PREFERRED[5]) == Get(b, PREFERRED[5]);
    assert n > 6 ==> Get(a, PREFERRED[6]) == Get(b, PREFERRED[6]);
  }

  /** The finding of one record of the `advisories` section; None when it raises. */
  function AdvisoryFinding(show: Json -> string, a: Json): Option<Finding> {
    if !a.JObj? then None
    else
      match PickAdvisoryId(show, a)
      case None => None
      case Some(id) => Some(Finding(Or(Get(a, "module_name"), Get(a, "name")), Get(a, "severity"), id))
  }

  /** The identifier and the title of one `via` item; nothing when the item is neither an object nor a string. */
  function ViaItem(item: Json): Option<(Json, Json)> {
    match item
    case JObj(_) =>
      Some((Or(Get(item, "github_advisory_id"),
               Or(Get(item, "url"), Or(Get(item, "source"), Or(Get(item, "title"), Get(item, "name"))))),
            Or(Get(item, "title"), Or(Get(item, "url"), Or(Get(item, "advisory"), Get(item, "source"))))))
    case JStr(_) => Some((item, item))
    case _ => None
  }

  /** A `via` that is a bare string stands for a list of one. */
  function ViaList(via: Json): seq<Json> {
    match via
    case JArr(items) => items
    case JStr(_) => [via]
    case _ => []
  }

  /** Joining the titles raises when a title that is kept is not a string, such as a numeric `source`. */
  predicate JoinRaises(item: Json) {
    ViaItem(item).Some? && Truthy(ViaItem(item).value.1) && !ViaItem(item).value.1.JStr?
  }

  predicate AnyRaises(items: seq<Json>) {
    exists item <- items :: JoinRaises(item)
  }

  lemma AnyRaisesSnoc(items: seq<Json>, item: Json)
    ensures AnyRaises(items + [item]) <==> AnyRaises(items) || JoinRaises(item)
  {
    assert forall x :: x in items + [item] <==> x in items || x == item;
  }

  predicate Identifies(item: Json) {
    ViaItem(item).Some? && Truthy(ViaItem(item).value.0)
  }

  function ViaFindings(name: string, severity: Json, items: seq<Json>): seq<Finding> {
    if items == [] then []
    else if Identifies(items[0]) then
      [Finding(JStr(name), severity, ViaItem(items[0]).value.0)] + ViaFindings(name, severity, items[1..])
    else
      ViaFindings(name, severity, items[1..])
  }

  /** The findings of one record of the `vulnerabilities` section; None when it raises. */
  function VulnFindings(name: string, vuln: Json): Option<seq<Finding>> {
    if !vuln.JObj? then None
    else
      var items := ViaList(Get(vuln, "via"));
      if AnyRaises(items) then None
      else Some(ViaFindings(name, Get(vuln, "severity"), items))
  }

  function AdvisorySection(show: Json -> string, entries: seq<(string, Json)>): Option<seq<Finding>> {
    if entries == [] then Some([])
    else
      match (AdvisorySection(show, entries[..|entries| - 1]), AdvisoryFinding(show, entries[|entries| - 1].1))
      case (Some(fs), Some(f)) => Some(fs + [f])
      case _ => None
  }

  function VulnSection(entries: seq<(string, Json)>): Option<seq<Finding>> {
    if entries == [] then Some([])
    else
      var (name, vuln) := entries[|entries| - 1];
      match (VulnSection(entries[..|entries| - 1]), VulnFindings(name, vuln))
      case (Some(fs), Some(more)) => Some(fs + more)
      case _ => None
  }

  function Entries(section: Json): seq<(string, Json)> {
    if section.JObj? then section.entries else []
  }

  /** All findings in the order in which they are yielded; None when the iteration raises. */
  function Findings(show: Json -> string, data: Json): Option<seq<Finding>> {
    if !data.JObj? then None
    else
      match (AdvisorySection(show, Entries(Get(data, "advisories"))), VulnSection(Entries(Get(data, "vulnerabilities"))))
      case (Some(fs), Some(more)) => Some(fs + more)
      case _ => None
  }

  lemma {:induction false} AdvisoryPrefixRaises(show: Json -> string, entries: seq<(string, Json)>, n: nat)
    requires n <= |entries| && AdvisorySection(show, entries[..n]) == None
    ensures AdvisorySection(show, entries) == None
    decreases |entries|
  {
    if n < |entries| {
      assert entries[..|entries| - 1][..n] == entries[..n];
      AdvisoryPrefixRaises(show, entries[..|entries| - 1], n);
    } else {
      assert entries[..n] == entries;
    }
  }

  lemma {:induction false} VulnPrefixRaises(entries: seq<(string, Json)>, n: nat)
    requires n <= |entries| && VulnSection(entries[..n]) == None
    ensures VulnSection(entries) == None
    decreases |entries|
  {
    if n < |entries| {
      assert entries[..|entries| - 1][..n] == entries[..n];
      VulnPrefixRaises(entries[..|entries| - 1], n);
    } else {
      assert entries[..n] == entries;
    }
  }

  lemma {:induction false} ViaFindingsSnoc(name: string, severity: Json, items: seq<Json>, item: Json)
    ensures ViaFindings(name, severity, items + [item]) ==
            ViaFindings(name, severity, items)
            + (if Identifies(item) then [Finding(JStr(name), severity, ViaItem(item).value.0)] else [])
  {
    if items == [] {
      assert items + [item] == [item] && [item][1..] == [];
    } else {
      assert (items + [item])[1..] == items[1..] + [item];
      ViaFindingsSnoc(name, severity, items[1..], item);
    }
  }

  /** The loop over one `via` list. */
  method VulnLoop(name: string, vuln: Json) returns (r: Option<seq<Finding>>)
    ensures r == VulnFindings(name, vuln)
  {
    if !vuln.JObj? {
      return None;
    }
    var severity, items := Get(vuln, "severity"), ViaList(Get(vuln, "via"));
    var found: seq<Finding> := [];
    var raises := false;
    for i := 0 to |items|
      invariant found == ViaFindings(name, severity, items[..i])
      invariant raises <==> AnyRaises(items[..i])
    {
      assert items[..i + 1] == items[..i] + [items[i]];
      AnyRaisesSnoc(items[..i], items[i]);
      ViaFindingsSnoc(name, severity, items[..i], items[i]);
      var entry := ViaItem(items[i]);
      if entry.Some? {
        if Truthy(entry.value.0) {
          found := found + [Finding(JStr(name), severity, entry.value.0)];
        }
        raises := raises || (Truthy(entry.value.1) && !entry.value.1.JStr?);
      }
    }
    assert items[..|items|] == items;
    return if raises then None else Some(found);
  }

  /** `iter_vulns`, run to its end. */
  method IterVulns(show: Json -> string, data: Json) returns (r: Option<seq<Finding>>)
    ensures r == Findings(show, data)
  {
    if !data.JObj? {
      return None;
    }
    var advisories, vulns := Entries(Get(data, "advisories")), Entries(Get(data, "vulnerabilities"));
    var first: seq<Finding> := [];
    for i := 0 to |advisories|
      invariant AdvisorySection(show, advisories[..i]) == Some(first)
    {
      assert advisories[..i + 1][..i] == advisories[..i];
      var f := AdvisoryFinding(show, advisories[i].1);
      if f.None? {
        AdvisoryPrefixRaises(show, advisories, i + 1);
        return None;
      }
      first := first + [f.value];
    }
    assert advisories[..|advisories|] == advisories;
    var second: seq<Finding> := [];
    for i := 0 to |vulns|
      invariant VulnSection(vulns[..i]) == Some(second)
    {
      assert vulns[..i + 1][..i] == vulns[..i];
      var fs := VulnLoop(vulns[i].0, vulns[i].1);
      if fs.None? {
        VulnPrefixRaises(vulns, i + 1);
        return None;
      }
      second := second + fs.value;
    }
    assert vulns[..|vulns|] == vulns;
    return Some(first + second);
  }

  // ---------------------------------------------------------------- records, field by field

  /** Python takes nothing, false, zero and everything empty for false. */
  lemma TruthyExact(j: Json)
    ensures !Truthy(j) <==> j in {JNull, JBool(false), JStr(""), JArr([]), JObj([])} || (j.JNum? && j.zero)
  {
  }

  /** x is what a chain of `or` over the candidates returns: the first true one, or the last one if none is true. */
  ghost predicate FirstTrue(candidates: seq<Json>, x: Json) {
    exists k: nat :: FirstTrueAt(candidates, x, k)
  }

  ghost predicate FirstTrueAt(candidates: seq<Json>, x: Json, k: nat) {
    && k < |candidates| && candidates[k] == x && (Truthy(x) || k == |candidates| - 1)
    && forall i :: 0 <= i < k ==> !Truthy(candidates[i])
  }

  /** The first element of a list of CVE numbers, the first character of a text, or nothing. */
  function CveItem(cves: Json): Json {
    match cves
    case JArr(items) => if items == [] then JNull else items[0]
    case JStr(s) => if s == "" then JNull else JStr([s[0]])
    case _ => JNull
  }

  function IdText(show: Json -> string, id: Json): Json {
    match id
    case JNull => JNull
    case JStr(s) => JStr(s)
    case _ => JStr(show(id))
  }

  /** The seven sources of an identifier: GHSA number, URL, first CVE, numeric id, and then the three texts. */
  function AdvisoryIds(show: Json -> string, a: Json): seq<Json>
    requires a.JObj?
  {
    [Get(a, "github_advisory_id"), Get(a, "url"), CveItem(Get(a, "cves")), IdText(show, Get(a, "id")),
     Get(a, "title"), Get(a, "advisory"), Get(a, "overview")]
  }

  /** What an advisory record says: `module_name` or else `name`, the severity, and the first true identifier. */
  ghost predicate Reports(show: Json -> string, a: Json, f: Finding) {
    && a.JObj?
    && FirstTrue([Get(a, "module_name"), Get(a, "name")], f.name)
    && f.severity == Get(a, "severity")
    && FirstTrue(AdvisoryIds(show, a), f.advisory)
  }

  /** `(cves or [None])[0]` raises on a true value that is neither a list nor a text. */
  predicate Unindexable(cves: Json) {
    Truthy(cves) && !cves.JArr? && !cves.JStr?
  }

  /** An advisory record is no object, or its `cves` are reached and cannot be indexed. */
  predicate AdvisoryRaises(a: Json) {
    a.JObj? ==> !Truthy(Get(a, "github_advisory_id")) && !Truthy(Get(a, "url")) && Unindexable(Get(a, "cves"))
  }

  lemma {:induction false} FirstTrueUnique(candidates: seq<Json>, x: Json, y: Json)
    requires FirstTrue(candidates, x) && FirstTrue(candidates, y)
    ensures x == y
  {
    var i: nat :| FirstTrueAt(candidates, x, i);
    var j: nat :| FirstTrueAt(candidates, y, j);
    assert i == j;
  }

  /** Each `or` is one step of the chain. */
  lemma {:induction false} OrFirst(a: Json, rest: seq<Json>, x: Json)
    requires FirstTrue(rest, x)
    ensures FirstTrue([a] + rest, Or(a, x))
  {
    var k: nat :| FirstTrueAt(rest, x, k);
    if Truthy(a) {
      assert FirstTrueAt([a] + rest, a, 0);
    } else {
      assert FirstTrueAt([a] + rest, x, k + 1);
    }
  }

  lemma OrLast(x: Json)
    ensures FirstTrue([x], x)
  {
    assert FirstTrueAt([x], x, 0);
  }

  lemma {:induction false} OrTwo(a: Json, b: Json, rest: seq<Json>, x: Json)
    requires FirstTrue(rest, x)
    ensures FirstTrue([a, b] + rest, Or(a, Or(b, x)))
  {
    OrFirst(b, rest, x);
    OrFirst(a, [b] + rest, Or(b, x));
    assert [a] + ([b] + rest) == [a, b] + rest;
  }

  lemma {:induction false} PickedFirst(show: Json -> string, a: Json)
    requires !AdvisoryRaises(a)
    ensures PickAdvisoryId(show, a).Some? && FirstTrue(AdvisoryIds(show, a), PickAdvisoryId(show, a).value)
  {
    var c := AdvisoryIds(show, a);
    var texts, later := Or(c[4], Or(c[5], c[6])), Or(c[2], Or(c[3], Or(c[4], Or(c[5], c[6]))));
    OrLast(c[6]);
    OrTwo(c[4], c[5], [c[6]], c[6]);
    assert [c[4], c[5]] + [c[6]] == c[4..];
    OrTwo(c[2], c[3], c[4..], texts);
    assert [c[2], c[3]] + c[4..] == c[2..];
    OrTwo(c[0], c[1], c[2..], later);
    assert [c[0], c[1]] + c[2..] == c;
    PickedIsChain(show, a);
  }

  lemma PickedIsChain(show: Json -> string, a: Json)
    requires !AdvisoryRaises(a)
    ensures var c := AdvisoryIds(show, a);
      PickAdvisoryId(show, a) == Some(Or(c[0], Or(c[1], Or(c[2], Or(c[3], Or(c[4], Or(c[5], c[6])))))))
  {
    var cves := Get(a, "cves");
    if cves.JStr? && cves.s != "" {
      assert cves.s[..1] == [cves.s[0]];
    }
  }

  /** The finding of an advisory record, or that it raises, is read off its fields. */
  lemma {:induction false} AdvisoryExact(show: Json -> string, a: Json, f: Finding)
    ensures AdvisoryFinding(show, a) == None <==> AdvisoryRaises(a)
    ensures AdvisoryFinding(show, a) == Some(f) <==> !AdvisoryRaises(a) && Reports(show, a, f)
  {
    if !AdvisoryRaises(a) {
      PickedFirst(show, a);
      OrLast(Get(a, "name"));
      OrFirst(Get(a, "module_name"), [Get(a, "name")], Get(a, "name"));
      assert [Get(a, "module_name")] + [Get(a, "name")] == [Get(a, "module_name"), Get(a, "name")];
      var found := AdvisoryFinding(show, a).value;
      assert Reports(show, a, found);
      if Reports(show, a, f) {
        FirstTrueUnique([Get(a, "module_name"), Get(a, "name")], f.name, found.name);
        FirstTrueUnique(AdvisoryIds(show, a), f.advisory, found.advisory);
      }
    }
  }

  function ViaIds(item: Json): seq<Json>
    requires item.JObj?
  {
    [Get(item, "github_advisory_id"), Get(item, "url"), Get(item, "source"), Get(item, "title"), Get(item, "name")]
  }

  function ViaTitles(item: Json): seq<Json>
    requires item.JObj?
  {
    [Get(item, "title"), Get(item, "url"), Get(item, "advisory"), Get(item, "source")]
  }

  /** A `via` item identifies a vulnerability by its first true identifier, or by itself when it is a text. */
  ghost predicate Names(item: Json, id: Json) {
    if item.JObj? then Truthy(id) && FirstTrue(ViaIds(item), id) else item.JStr? && item.s != "" && id == item
  }

  /** The title of a `via` object is kept, and cannot be joined because it is no text. */
  ghost predicate TitleRaises(item: Json) {
    item.JObj? && exists t :: FirstTrue(ViaTitles(item), t) && Truthy(t) && !t.JStr?
  }

  /** The items of a vulnerability record; a bare text stands for a list of one. */
  ghost predicate InVia(vuln: Json, item: Json)
    requires vuln.JObj?
  {
    match Get(vuln, "via")
    case JArr(items) => item in items
    case JStr(s) => item == JStr(s)
    case _ => false
  }

  /** A vulnerability record is no object, or the title of some `via` item cannot be joined. */
  ghost predicate VulnRaises(vuln: Json) {
    vuln.JObj? ==> exists item :: InVia(vuln, item) && TitleRaises(item)
  }

  lemma {:induction false} ViaExact(item: Json, id: Json)
    ensures Identifies(item) && ViaItem(item).value.0 == id <==> Names(item, id)
    ensures JoinRaises(item) <==> TitleRaises(item)
  {
    if item.JObj? {
      ViaChains(item);
      forall x | FirstTrue(ViaTitles(item), x)
        ensures x == ViaItem(item).value.1
      {
        FirstTrueUnique(ViaTitles(item), x, ViaItem(item).value.1);
      }
      if Names(item, id) {
        FirstTrueUnique(ViaIds(item), id, ViaItem(item).value.0);
      }
    }
  }

  lemma {:induction false} ViaChains(item: Json)
    requires item.JObj?
    ensures FirstTrue(ViaIds(item), ViaItem(item).value.0)
    ensures FirstTrue(ViaTitles(item), ViaItem(item).value.1)
  {
    var c, t := ViaIds(item), ViaTitles(item);
    OrLast(c[4]);
    OrTwo(c[2], c[3], [c[4]], c[4]);
    OrTwo(c[0], c[1], [c[2], c[3]] + [c[4]], Or(c[2], Or(c[3], c[4])));
    assert [c[0], c[1]] + ([c[2], c[3]] + [c[4]]) == c;
    OrLast(t[3]);
    OrFirst(t[2], [t[3]], t[3]);
    OrTwo(t[0], t[1], [t[2]] + [t[3]], Or(t[2], t[3]));
    assert [t[0], t[1]] + ([t[2]] + [t[3]]) == t;
  }

  lemma {:induction false} VulnRaisesExact(name: string, vuln: Json)
    ensures VulnFindings(name, vuln) == None <==> VulnRaises(vuln)
  {
    if vuln.JObj? {
      forall item
        ensures JoinRaises(item) <==> TitleRaises(item)
        ensures item in ViaList(Get(vuln, "via")) <==> InVia(vuln, item)
      {
        ViaExact(item, JNull);
      }
    }
  }

  // ---------------------------------------------------------------- which findings there are

  lemma {:induction false} ViaMembers(name: string, severity: Json, items: seq<Json>, f: Finding)
    ensures f in ViaFindings(name, severity, items) <==>
            exists item <- items :: f.name == JStr(name) && f.severity == severity && Names(item, f.advisory)
    decreases |items|
  {
    if items != [] {
      ViaMembers(name, severity, items[1..], f);
      ViaExact(items[0], f.advisory);
      assert forall item :: item in items <==> item == items[0] || item in items[1..];
    }
  }

  /** A section counts when it is an object; its keys matter for vulnerabilities only. */
  ghost predicate Listed(section: Json, e: (string, Json)) {
    section.JObj? && e in section.entries
  }

  ghost predicate FromAdvisory(show: Json -> string, section: Json, f: Finding) {
    exists e :: Listed(section, e) && Reports(show, e.1, f)
  }

  /** The record's key is the package, its severity the severity, and some `via` item names the advisory. */
  ghost predicate FromVuln(section: Json, f: Finding) {
    exists e :: Listed(section, e) && InVuln(e, f)
  }

  ghost predicate InVuln(e: (string, Json), f: Finding) {
    && e.1.JObj? && f.name == JStr(e.0) && f.severity == Get(e.1, "severity")
    && exists item :: InVia(e.1, item) && Names(item, f.advisory)
  }

  lemma {:induction false} AdvisoryMembers(show: Json -> string, entries: seq<(string, Json)>, f: Finding)
    requires AdvisorySection(show, entries).Some?
    ensures f in AdvisorySection(show, entries).value <==> exists e <- entries :: Reports(show, e.1, f)
    decreases |entries|
  {
    if entries != [] {
      var n := |entries| - 1;
      AdvisoryMembers(show, entries[..n], f);
      AdvisoryExact(show, entries[n].1, f);
      assert forall e :: e in entries <==> e == entries[n] || e in entries[..n];
    }
  }

  lemma {:induction false} OneVuln(e: (string, Json), f: Finding)
    requires VulnFindings(e.0, e.1).Some?
    ensures f in VulnFindings(e.0, e.1).value <==> InVuln(e, f)
  {
    ViaMembers(e.0, Get(e.1, "severity"), ViaList(Get(e.1, "via")), f);
  }

  lemma {:induction false} VulnMembers(entries: seq<(string, Json)>, f: Finding)
    requires VulnSection(entries).Some?
    ensures f in VulnSection(entries).value <==> exists e <- entries :: InVuln(e, f)
    decreases |entries|
  {
    if entries != [] {
      var n := |entries| - 1;
      VulnStep(entries);
      VulnMembers(entries[..n], f);
      OneVuln(entries[n], f);
      assert forall e :: e in entries <==> e == entries[n] || e in entries[..n];
    }
  }

  /** A finding is yielded exactly when some advisory record says it, or some vulnerability record says it through
      one of its `via` items. */
  lemma {:induction false} FindingsExact(show: Json -> string, data: Json, f: Finding)
    requires Findings(show, data).Some?
    ensures f in Findings(show, data).value <==>
            || FromAdvisory(show, Get(data, "advisories"), f)
            || FromVuln(Get(data, "vulnerabilities"), f)
  {
    AdvisoryMembers(show, Entries(Get(data, "advisories")), f);
    VulnMembers(Entries(Get(data, "vulnerabilities")), f);
  }

  // ---------------------------------------------------------------- in which order

  lemma {:induction false} AdvisoryOrder(show: Json -> string, entries: seq<(string, Json)>)
    requires AdvisorySection(show, entries).Some?
    ensures |AdvisorySection(show, entries).value| == |entries|
    ensures forall i :: 0 <= i < |entries| ==> Reports(show, entries[i].1, AdvisorySection(show, entries).value[i])
    decreases |entries|
  {
    if entries != [] {
      var n := |entries| - 1;
      AdvisoryOrder(show, entries[..n]);
      AdvisoryExact(show, entries[n].1, AdvisoryFinding(show, entries[n].1).value);
      assert forall i :: 0 <= i < n ==> entries[..n][i] == entries[i];
    }
  }

  /** One list behind the other, unless reading either of them raises. */
  function Append(a: Option<seq<Finding>>, b: Option<seq<Finding>>): Option<seq<Finding>> {
    if a.Some? && b.Some? then Some(a.value + b.value) else None
  }

  lemma AppendAssociates(a: Option<seq<Finding>>, b: Option<seq<Finding>>, c: Option<seq<Finding>>)
    ensures Append(Append(a, b), c) == Append(a, Append(b, c))
  {
    if a.Some? && b.Some? && c.Some? {
      assert (a.value + b.value) + c.value == a.value + (b.value + c.value);
    }
  }

  lemma VulnStep(entries: seq<(string, Json)>)
    requires entries != []
    ensures VulnSection(entries) ==
            Append(VulnSection(entries[..|entries| - 1]), VulnFindings(entries[|entries| - 1].0, entries[|entries| - 1].1))
  {
  }

  /** Vulnerability records are read one after the other. */
  lemma {:induction false} VulnOrder(a: seq<(string, Json)>, b: seq<(string, Json)>)
    ensures VulnSection(a + b) == Append(VulnSection(a), VulnSection(b))
    decreases |b|
  {
    if b == [] {
      assert a + b == a;
      assert VulnSection(a).Some? ==> VulnSection(a).value + [] == VulnSection(a).value;
    } else {
      var n := |b| - 1;
      VulnOrder(a, b[..n]);
      VulnStep(a + b);
      VulnStep(b);
      assert (a + b)[..|a + b| - 1] == a + b[..n];
      assert (a + b)[|a + b| - 1] == b[n];
      AppendAssociates(VulnSection(a), VulnSection(b[..n]), VulnFindings(b[n].0, b[n].1));
    }
  }

  /** So are the `via` items of a record. */
  lemma {:induction false} ViaOrder(name: string, severity: Json, a: seq<Json>, b: seq<Json>)
    ensures ViaFindings(name, severity, a + b) == ViaFindings(name, severity, a) + ViaFindings(name, severity, b)
  {
    if a == [] {
      assert a + b == b;
    } else {
      assert (a + b)[1..] == a[1..] + b;
      ViaOrder(name, severity, a[1..], b);
    }
  }

  /** Findings come in document order: first one for each advisory record, then those of the vulnerability
      records. */
  lemma {:induction false} DocumentOrder(show: Json -> string, data: Json)
    requires Findings(show, data).Some?
    ensures
      var fs, advisories, vulns := Findings(show, data).value, Entries(Get(data, "advisories")), Entries(Get(data, "vulnerabilities"));
      && |advisories| <= |fs|
      && (forall i :: 0 <= i < |advisories| ==> Reports(show, advisories[i].1, fs[i]))
      && VulnSection(vulns) == Some(fs[|advisories|..])
      && (Get(data, "advisories").JObj? ==> advisories == Get(data, "advisories").entries)
      && (Get(data, "vulnerabilities").JObj? ==> vulns == Get(data, "vulnerabilities").entries)
  {
    var advisories, vulns := Entries(Get(data, "advisories")), Entries(Get(data, "vulnerabilities"));
    AdvisoryOrder(show, advisories);
    assert Findings(show, data).value[|advisories|..] == VulnSection(vulns).value;
  }

  // ---------------------------------------------------------------- when reading raises

  lemma {:induction false} AdvisoriesRaise(show: Json -> string, entries: seq<(string, Json)>)
    ensures AdvisorySection(show, entries) == None <==> exists e <- entries :: AdvisoryRaises(e.1)
    decreases |entries|
  {
    if entries != [] {
      var n := |entries| - 1;
      AdvisoriesRaise(show, entries[..n]);
      AdvisoryExact(show, entries[n].1, Finding(JNull, JNull, JNull));
      assert forall e :: e in entries <==> e == entries[n] || e in entries[..n];
    }
  }

  lemma {:induction false} VulnsRaise(entries: seq<(string, Json)>)
    ensures VulnSection(entries) == None <==> exists e <- entries :: VulnRaises(e.1)
    decreases |entries|
  {
    if entries != [] {
      var n := |entries| - 1;
      VulnsRaise(entries[..n]);
      VulnRaisesExact(entries[n].0, entries[n].1);
      assert forall e :: e in entries <==> e == entries[n] || e in entries[..n];
    }
  }

  /** Exactly which reports cannot be read to the end. */
  lemma {:induction false} RaisesExact(show: Json -> string, data: Json)
    ensures Findings(show, data) == None <==>
            || !data.JObj?
            || (exists e :: Listed(Get(data, "advisories"), e) && AdvisoryRaises(e.1))
            || (exists e :: Listed(Get(data, "vulnerabilities"), e) && VulnRaises(e.1))
  {
    if data.JObj? {
      AdvisoriesRaise(show, Entries(Get(data, "advisories")));
      VulnsRaise(Entries(Get(data, "vulnerabilities")));
    }
  }

  // ---------------------------------------------------------------- what may change between two reports

  const VIA_PREFERRED := ["github_advisory_id", "url", "source", "title", "name"]

  /** Two `via` items that name the same vulnerability: equal texts, or objects with the same fields down to the
      first true identifier. */
  ghost predicate SameVia(a: Json, b: Json) {
    if a.JObj? && b.JObj? then SameDownTo(key => a.JObj? && Truthy(Get(a, key)), a, b, VIA_PREFERRED)
    else a == b
  }

  lemma {:induction false} StableViaId(a: Json, b: Json)
    requires SameVia(a, b)
    ensures Identifies(a) <==> Identifies(b)
    ensures Identifies(a) ==> ViaItem(a).value.0 == ViaItem(b).value.0
  {
    if a.JObj? && b.JObj? {
      var n: nat :| SameFirst(key => a.JObj? && Truthy(Get(a, key)), a, b, VIA_PREFERRED, n);
      assert n > 0 ==> Get(a, VIA_PREFERRED[0]) == Get(b, VIA_PREFERRED[0]);
      assert n > 1 ==> Get(a, VIA_PREFERRED[1]) == Get(b, VIA_PREFERRED[1]);
      assert n > 2 ==> Get(a, VIA_PREFERRED[2]) == Get(b, VIA_PREFERRED[2]);
      assert n > 3 ==> Get(a, VIA_PREFERRED[3]) == Get(b, VIA_PREFERRED[3]);
      assert n > 4 ==> Get(a, VIA_PREFERRED[4]) == Get(b, VIA_PREFERRED[4]);
    }
  }

  ghost predicate SameVias(a: seq<Json>, b: seq<Json>) {
    |a| == |b| && forall i :: 0 <= i < |a| ==> SameVia(a[i], b[i])
  }

  lemma {:induction false} StableVias(name: string, severity: Json, a: seq<Json>, b: seq<Json>)
    requires SameVias(a, b)
    ensures ViaFindings(name, severity, a) == ViaFindings(name, severity, b)
  {
    if a != [] {
      StableViaId(a[0], b[0]);
      StableVias(name, severity, a[1..], b[1..]);
    }
  }

  /** Two advisory records that name the same vulnerability of the same package with the same severity. */
  ghost predicate SameAdvisory(show: Json -> string, a: Json, b: Json) {
    && a.JObj? && b.JObj?
    && Or(Get(a, "module_name"), Get(a, "name")) == Or(Get(b, "module_name"), Get(b, "name"))
    && Get(a, "severity") == Get(b, "severity")
    && SameDownTo(key => Settles(show, a, key), a, b, PREFERRED)
  }

  ghost predicate SameVuln(a: Json, b: Json) {
    && a.JObj? && b.JObj?
    && Get(a, "severity") == Get(b, "severity")
    && SameVias(ViaList(Get(a, "via")), ViaList(Get(b, "via")))
  }

  ghost predicate SameAdvisories(show: Json -> string, a: seq<(string, Json)>, b: seq<(string, Json)>) {
    |a| == |b| && forall i :: 0 <= i < |a| ==> SameAdvisory(show, a[i].1, b[i].1)
  }

  ghost predicate SameVulns(a: seq<(string, Json)>, b: seq<(string, Json)>) {
    |a| == |b| && forall i :: 0 <= i < |a| ==> a[i].0 == b[i].0 && SameVuln(a[i].1, b[i].1)
  }

  lemma {:induction false} StableAdvisories(show: Json -> string, a: seq<(string, Json)>, b: seq<(string, Json)>)
    requires SameAdvisories(show, a, b)
    ensures AdvisorySection(show, a) == AdvisorySection(show, b)
    decreases |a|
  {
    if a != [] {
      var n := |a| - 1;
      StableAdvisories(show, a[..n], b[..n]);
      StableAdvisoryId(show, a[n].1, b[n].1);
    }
  }

  lemma {:induction false} StableVulns(a: seq<(string, Json)>, b: seq<(string, Json)>)
    requires SameVulns(a, b) && VulnSection(a).Some? && VulnSection(b).Some?
    ensures VulnSection(a) == VulnSection(b)
    decreases |a|
  {
    if a != [] {
      var n := |a| - 1;
      StableVulns(a[..n], b[..n]);
      StableVias(a[n].0, Get(a[n].1, "severity"), ViaList(Get(a[n].1, "via")), ViaList(Get(b[n].1, "via")));
    }
  }

  /** Two reports that list the same vulnerabilities in the same order. The records may differ in every field
      that is less preferred than the one that identifies them, and in the keys of the advisory records. */
  ghost predicate SameVulnerabilities(show: Json -> string, a: Json, b: Json) {
    && a.JObj? && b.JObj?
    && SameAdvisories(show, Entries(Get(a, "advisories")), Entries(Get(b, "advisories")))
    && SameVulns(Entries(Get(a, "vulnerabilities")), Entries(Get(b, "vulnerabilities")))
  }

  /** Then the later report yields the findings of the earlier one, unless joining the titles of some `via` list
      raises in the later one. Advisory records never make the difference. */
  lemma {:induction false} StableFindings(show: Json -> string, a: Json, b: Json)
    requires SameVulnerabilities(show, a, b) && Findings(show, a).Some?
    ensures Findings(show, b) ==
            if exists e :: Listed(Get(b, "vulnerabilities"), e) && VulnRaises(e.1) then None else Findings(show, a)
  {
    StableAdvisories(show, Entries(Get(a, "advisories")), Entries(Get(b, "advisories")));
    VulnsRaise(Entries(Get(b, "vulnerabilities")));
    if VulnSection(Entries(Get(b, "vulnerabilities"))).Some? {
      StableVulns(Entries(Get(a, "vulnerabilities")), Entries(Get(b, "vulnerabilities")));
    }
  }

  // ---------------------------------------------------------------- an example

  lemma {:induction false} LookupAt(entries: seq<(string, Json)>, key: string, i: nat)
    requires i < |entries| && entries[i].0 == key && forall j :: 0 <= j < i ==> entries[j].0 != key
    ensures Lookup(entries, key) == entries[i].1
  {
    if i > 0 {
      LookupAt(entries[1..], key, i - 1);
    }
  }

  lemma {:induction false} LookupMissing(entries: seq<(string, Json)>, key: string)
    requires forall e <- entries :: e.0 != key
    ensures Lookup(entries, key) == JNull
  {
    if entries != [] {
      LookupMissing(entries[1..], key);
    }
  }

  /** A report on one package with one `via` item. */
  function OneVia(name: string, severity: Json, item: Json): Json {
    JObj([("vulnerabilities", JObj([(name, Vuln(severity, item))]))])
  }

  function Vuln(severity: Json, item: Json): Json {
    JObj([("severity", severity), ("via", JArr([item]))])
  }

  function Titled(ghsa: string, title: string, source: string): Json {
    JObj([("github_advisory_id", JStr(ghsa)), ("title", JStr(title)), ("source", JNum(source, false))])
  }

  function Untitled(ghsa: string, source: string): Json {
    JObj([("github_advisory_id", JStr(ghsa)), ("source", JNum(source, false))])
  }

  /** Titles do decide this: an item with a GHSA number, a title and a numeric source can be read, but the same
      item without its title cannot, because the number is then joined as a title. */
  lemma {:induction false} LosingTitleRaises(show: Json -> string, name: string, severity: Json, ghsa: string, title: string, source: string)
    requires ghsa != "" && title != ""
    ensures SameVulnerabilities(show, OneVia(name, severity, Titled(ghsa, title, source)), OneVia(name, severity, Untitled(ghsa, source)))
    ensures Findings(show, OneVia(name, severity, Titled(ghsa, title, source))) == Some([Finding(JStr(name), severity, JStr(ghsa))])
    ensures Findings(show, OneVia(name, severity, Untitled(ghsa, source))) == None
  {
    TitledItem(ghsa, title, source);
    UntitledItem(ghsa, source);
    OneViaSame(show, name, severity, Titled(ghsa, title, source), Untitled(ghsa, source));
    OneViaRead(show, name, severity, Titled(ghsa, title, source));
    OneViaRead(show, name, severity, Untitled(ghsa, source));
  }

  lemma {:induction false} TitledItem(ghsa: string, title: string, source: string)
    requires ghsa != "" && title != ""
    ensures ViaItem(Titled(ghsa, title, source)) == Some((JStr(ghsa), JStr(title)))
    ensures Get(Titled(ghsa, title, source), "github_advisory_id") == JStr(ghsa)
  {
    var entries := Titled(ghsa, title, source).entries;
    LookupAt(entries, "github_advisory_id", 0);
    LookupAt(entries, "title", 1);
  }

  lemma {:induction false} UntitledItem(ghsa: string, source: string)
    requires ghsa != ""
    ensures ViaItem(Untitled(ghsa, source)) == Some((JStr(ghsa), JNum(source, false)))
    ensures Get(Untitled(ghsa, source), "github_advisory_id") == JStr(ghsa)
  {
    var entries := Untitled(ghsa, source).entries;
    LookupAt(entries, "github_advisory_id", 0);
    LookupAt(entries, "source", 1);
    LookupMissing(entries, "title");
    LookupMissing(entries, "url");
    LookupMissing(entries, "advisory");
  }

  lemma {:induction false} VulnFields(severity: Json, item: Json)
    ensures Get(Vuln(severity, item), "severity") == severity && Get(Vuln(severity, item), "via") == JArr([item])
  {
    LookupAt(Vuln(severity, item).entries, "severity", 0);
    LookupAt(Vuln(severity, item).entries, "via", 1);
  }

  lemma {:induction false} Sections(name: string, severity: Json, item: Json)
    ensures Entries(Get(OneVia(name, severity, item), "advisories")) == []
    ensures Entries(Get(OneVia(name, severity, item), "vulnerabilities")) == [(name, Vuln(severity, item))]
  {
    var entries := OneVia(name, severity, item).entries;
    LookupMissing(entries, "advisories");
    LookupAt(entries, "vulnerabilities", 0);
  }

  /** Items with the same GHSA number name the same vulnerability. */
  lemma {:induction false} OneViaSame(show: Json -> string, name: string, severity: Json, a: Json, b: Json)
    requires a.JObj? && b.JObj? && Truthy(Get(a, "github_advisory_id"))
    requires Get(a, "github_advisory_id") == Get(b, "github_advisory_id")
    ensures SameVulnerabilities(show, OneVia(name, severity, a), OneVia(name, severity, b))
  {
    Sections(name, severity, a);
    Sections(name, severity, b);
    VulnFields(severity, a);
    VulnFields(severity, b);
    assert SameFirst(key => a.JObj? && Truthy(Get(a, key)), a, b, VIA_PREFERRED, 1);
    assert SameVia(a, b);
  }

  lemma {:induction false} OneViaRead(show: Json -> string, name: string, severity: Json, item: Json)
    ensures Findings(show, OneVia(name, severity, item)) ==
            if JoinRaises(item) then None
            else Some(if Identifies(item) then [Finding(JStr(name), severity, ViaItem(item).value.0)] else [])
  {
    var entries := [(name, Vuln(severity, item))];
    Sections(name, severity, item);
    VulnFields(severity, item);
    assert AnyRaises([item]) <==> JoinRaises(item) by {
      assert item in [item];
    }
    assert entries[..|entries| - 1] == [];
    var found := if Identifies(item) then [Finding(JStr(name), severity, ViaItem(item).value.0)] else [];
    ViaFindingsSnoc(name, severity, [], item);
    assert [] + [item] == [item] && [] + found == found;
    assert VulnSection(entries) == if JoinRaises(item) then None else Some(found);
  }
}
