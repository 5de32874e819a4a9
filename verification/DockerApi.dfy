/** Container ids, request paths and the container list (src/docker_api.cpp). */
module DockerApi {
  import opened Wrappers
  import opened Text
  import opened JsonSyntax
  import opened Config
  import opened Discovery
  import JsonSpec
  import JsonParser

  const ID_LENGTH: nat := 64

  predicate IsValidContainerId(id: string) { |id| == ID_LENGTH && AllHex(id) }

  // ---- names ----

  function NormalizeContainerName(raw: string): string {
    if raw != "" && raw[0] == '/' then NormalizeContainerName(raw[1..]) else raw
  }

  method StripSlashes(raw: string) returns (name: string)
    ensures name == NormalizeContainerName(raw)
  {
    name := raw;
    while name != "" && name[0] == '/'
      invariant NormalizeContainerName(name) == NormalizeContainerName(raw)
      decreases |name|
    {
      name := name[1..];
    }
  }

  /** A normalized name is the raw name without its leading slashes. */
  lemma {:induction false} NormalizedName(raw: string)
    ensures var name := NormalizeContainerName(raw);
      && (name == "" || name[0] != '/')
      && |name| <= |raw| && raw[|raw| - |name|..] == name
      && forall i :: 0 <= i < |raw| - |name| ==> raw[i] == '/'
  {
    if raw != "" && raw[0] == '/' { NormalizedName(raw[1..]); }
  }

  // ---- request paths ----

  const PREFIX: string := "/v1.41/containers/"
  const STOP_SUFFIX: string := "/stop?t="
  const KILL_SUFFIX: string := "/kill?signal=SIGKILL"

  function StopContainerPath(id: string, timeout: int): Option<string> {
    if !IsValidContainerId(id) then None
    else if timeout < 1 || timeout > 600 then None
    else Some(PREFIX + id + STOP_SUFFIX + ToDecimal(timeout))
  }

  function KillContainerPath(id: string): Option<string> {
    if !IsValidContainerId(id) then None else Some(PREFIX + id + KILL_SUFFIX)
  }

  /** What a request path asks for. */
  datatype Order = StopOrder(id: string, timeout: nat) | KillOrder(id: string)

  /** Reading a path back, from its fixed parts alone. */
  function ParsePath(path: string): Option<Order> {
    var n := |PREFIX| + ID_LENGTH;
    if |path| < n || path[..|PREFIX|] != PREFIX then None
    else
      var id, rest := path[|PREFIX|..n], path[n..];
      if rest == KILL_SUFFIX then Some(KillOrder(id))
      else if |rest| > |STOP_SUFFIX| && rest[..|STOP_SUFFIX|] == STOP_SUFFIX && AllDigits(rest[|STOP_SUFFIX|..]) then
        Some(StopOrder(id, DecValue(rest[|STOP_SUFFIX|..])))
      else None
  }

  lemma PathParts(id: string, rest: string)
    requires |id| == ID_LENGTH
    ensures var path, n := PREFIX + id + rest, |PREFIX| + ID_LENGTH;
      |path| >= n && path[..|PREFIX|] == PREFIX && path[|PREFIX|..n] == id && path[n..] == rest
  {
  }

  /** A stop path exists exactly for a valid id and a timeout from 1 to 600, and determines both. */
  lemma StopPathRoundTrip(id: string, timeout: int)
    ensures StopContainerPath(id, timeout).Some? <==> IsValidContainerId(id) && 1 <= timeout <= 600
    ensures StopContainerPath(id, timeout).Some? ==>
      ParsePath(StopContainerPath(id, timeout).value) == Some(StopOrder(id, timeout))
  {
    hide ToDecimal, DecValue, AllHex;
    if IsValidContainerId(id) && 1 <= timeout <= 600 {
      var digits := ToDecimal(timeout);
      var rest := STOP_SUFFIX + digits;
      PathParts(id, rest);
      assert PREFIX + id + STOP_SUFFIX + digits == PREFIX + id + rest;
      assert rest[..|STOP_SUFFIX|] == STOP_SUFFIX && rest[|STOP_SUFFIX|..] == digits;
      assert rest[1] == 's' && KILL_SUFFIX[1] == 'k';
      DecimalRoundTrip(timeout);
    }
  }

  lemma KillPathRoundTrip(id: string)
    ensures KillContainerPath(id).Some? <==> IsValidContainerId(id)
    ensures KillContainerPath(id).Some? ==> ParsePath(KillContainerPath(id).value) == Some(KillOrder(id))
  {
    hide AllHex;
    if IsValidContainerId(id) { PathParts(id, KILL_SUFFIX); }
  }

  /** The 64 digits of an id, by code: decimal digits and the first six letters in either case. */
  predicate Is64Hex(id: string) {
    && |id| == 64
    && forall i :: 0 <= i < 64 ==>
         48 <= id[i] as int <= 57 || 65 <= id[i] as int <= 70 || 97 <= id[i] as int <= 102
  }

  /** The request paths of version 1.41 of the Docker Engine API, and when there is none. */
  lemma PathTexts(id: string, timeout: int)
    ensures StopContainerPath(id, timeout) ==
      if Is64Hex(id) && 1 <= timeout <= 600
      then Some("/v1.41/containers/" + id + "/stop?t=" + ToDecimal(timeout))
      else None
    ensures KillContainerPath(id) ==
      if Is64Hex(id) then Some("/v1.41/containers/" + id + "/kill?signal=SIGKILL") else None
  {
    assert IsValidContainerId(id) <==> Is64Hex(id);
  }

  // ---- the container list ----

  function StringOr(v: Option<Json>, absent: string): string {
    match v case Some(Str(s)) => s case _ => absent
  }

  /** The usable names among the first `n` of a list. */
  function NamesOf(items: seq<Json>, n: nat): seq<string>
    requires n <= |items|
  {
    if n == 0 then []
    else match items[n - 1]
      case Str(s) =>
        if NormalizeContainerName(s) == "" then NamesOf(items, n - 1)
        else NamesOf(items, n - 1) + [NormalizeContainerName(s)]
      case _ => NamesOf(items, n - 1)
  }

  function EntryNames(entry: Json): seq<string> {
    match Lookup(entry, "Names") case Some(Arr(items)) => NamesOf(items, |items|) case _ => []
  }

  /** One list entry; an entry without a valid id is skipped. */
  function ReadEntry(entry: Json): Option<Container> {
    match Lookup(entry, "Id")
    case Some(Str(id)) =>
      if IsValidContainerId(id) then
        Some(Container(id, EntryNames(entry), StringOr(Lookup(entry, "Image"), ""),
                       StringOr(Lookup(entry, "State"), ""), StringOr(Lookup(entry, "Status"), "")))
      else None
    case _ => None
  }

  function ReadEntries(entries: seq<Json>, n: nat): seq<Container>
    requires n <= |entries|
  {
    if n == 0 then []
    else match ReadEntry(entries[n - 1])
      case None => ReadEntries(entries, n - 1)
      case Some(c) => ReadEntries(entries, n - 1) + [c]
  }

  /** The containers of a response body, or nothing if it is not a JSON array. */
  function ContainerList(body: string, inRange: string -> bool): Option<seq<Container>> {
    match JsonSpec.Parse(body, inRange)
    case Some(Arr(entries)) => Some(ReadEntries(entries, |entries|))
    case _ => None
  }

  method ParseContainerList(body: string, inRange: string -> bool) returns (r: Option<seq<Container>>)
    ensures r == ContainerList(body, inRange)
  {
    hide AllHex, EntryNames, StringOr, JsonSpec.Parse;
    var parser := new JsonParser.Parser(body, inRange);
    var root := parser.Parse();
    if root.None? || !root.value.Arr? { return None; }
    var entries, out := root.value.items, [];
    for i := 0 to |entries|
      invariant out == ReadEntries(entries, i)
    {
      var id := Lookup(entries[i], "Id");
      if id.None? || !id.value.Str? { continue; }
      if !IsValidContainerId(id.value.s) { continue; }
      var names := ReadNames(entries[i]);
      out := out + [Container(id.value.s, names, StringOr(Lookup(entries[i], "Image"), ""),
                              StringOr(Lookup(entries[i], "State"), ""), StringOr(Lookup(entries[i], "Status"), ""))];
    }
    r := Some(out);
  }

  method ReadNames(entry: Json) returns (names: seq<string>)
    ensures names == EntryNames(entry)
  {
    var list := Lookup(entry, "Names");
    names := [];
    if list.None? || !list.value.Arr? { return; }
    var items := list.value.items;
    for i := 0 to |items|
      invariant names == NamesOf(items, i)
    {
      if !items[i].Str? { continue; }
      var name := StripSlashes(items[i].s);
      if name != "" { names := names + [name]; }
    }
  }

  predicate ValidIds(cs: seq<Container>) { forall i :: 0 <= i < |cs| ==> IsValidContainerId(cs[i].id) }

  /** Every name kept is non-empty and has no leading slash. */
  predicate CleanNames(cs: seq<Container>) {
    forall i, k :: 0 <= i < |cs| && 0 <= k < |cs[i].names| ==> cs[i].names[k] != "" && cs[i].names[k][0] != '/'
  }

  lemma {:induction false} NamesAreClean(items: seq<Json>, n: nat)
    requires n <= |items|
    ensures forall k :: 0 <= k < |NamesOf(items, n)| ==> NamesOf(items, n)[k] != "" && NamesOf(items, n)[k][0] != '/'
  {
    hide NormalizeContainerName;
    if n > 0 {
      NamesAreClean(items, n - 1);
      if items[n - 1].Str? { NormalizedName(items[n - 1].s); }
    }
  }

  lemma {:induction false} EntriesAreClean(entries: seq<Json>, n: nat)
    requires n <= |entries|
    ensures ValidIds(ReadEntries(entries, n)) && CleanNames(ReadEntries(entries, n))
  {
    hide AllHex, NamesOf;
    if n > 0 {
      EntriesAreClean(entries, n - 1);
      var names := Lookup(entries[n - 1], "Names");
      if names.Some? && names.value.Arr? { NamesAreClean(names.value.items, |names.value.items|); }
    }
  }

  /** Every container of an accepted list carries a valid id and clean names. */
  lemma ListedContainersAreClean(body: string, inRange: string -> bool)
    requires ContainerList(body, inRange).Some?
    ensures ValidIds(ContainerList(body, inRange).value) && CleanNames(ContainerList(body, inRange).value)
  {
    hide ValidIds, CleanNames, JsonSpec.Parse;
    var entries := JsonSpec.Parse(body, inRange).value.items;
    EntriesAreClean(entries, |entries|);
  }

  /** The entry names a container by a valid id. */
  predicate Identified(entry: Json) {
    match Lookup(entry, "Id") case Some(Str(id)) => IsValidContainerId(id) case _ => false
  }

  /** A string field of the entry; anything else in its place reads as empty. */
  predicate FieldRead(entry: Json, key: string, got: string) {
    if Lookup(entry, key).Some? && Lookup(entry, key).value.Str?
    then Lookup(entry, key) == Some(Str(got))
    else got == ""
  }

  predicate IsContainerOf(c: Container, entry: Json) {
    && FieldRead(entry, "Id", c.id) && FieldRead(entry, "Image", c.image)
    && FieldRead(entry, "State", c.state) && FieldRead(entry, "Status", c.status)
    && if Lookup(entry, "Names").Some? && Lookup(entry, "Names").value.Arr?
       then var items := Lookup(entry, "Names").value.items; c.names == NamesOf(items, |items|)
       else c.names == []
  }

  /** `source` gives the position of each container's entry; the positions left out are exactly those of
      entries without a valid id. */
  ghost predicate ListedFrom(cs: seq<Container>, entries: seq<Json>, n: nat, source: seq<nat>)
    requires n <= |entries|
  {
    && |source| == |cs|
    && (forall k :: 0 <= k < |cs| ==> source[k] < n && IsContainerOf(cs[k], entries[source[k]]))
    && (forall j, k :: 0 <= j < k < |cs| ==> source[j] < source[k])
    && (forall i: nat :: i in source <==> i < n && Identified(entries[i]))
  }

  lemma ListSkip(cs: seq<Container>, entries: seq<Json>, n: nat, source: seq<nat>)
    requires n < |entries| && ListedFrom(cs, entries, n, source) && !Identified(entries[n])
    ensures ListedFrom(cs, entries, n + 1, source)
  {
    hide IsContainerOf, Identified;
  }

  lemma ListTake(cs: seq<Container>, entries: seq<Json>, n: nat, source: seq<nat>, last: Container)
    requires n < |entries| && ListedFrom(cs, entries, n, source)
    requires Identified(entries[n]) && IsContainerOf(last, entries[n])
    ensures ListedFrom(cs + [last], entries, n + 1, source + [n])
  {
    hide IsContainerOf, Identified;
    var source' := source + [n];
    forall i: nat ensures i in source' <==> i < n + 1 && Identified(entries[i]) {
      assert i in source' <==> i in source || i == n;
    }
  }

  /** The list keeps exactly the entries with a valid id, in order and field by field. */
  lemma {:induction false} ListIsSelection(entries: seq<Json>, n: nat) returns (source: seq<nat>)
    requires n <= |entries|
    ensures ListedFrom(ReadEntries(entries, n), entries, n, source)
  {
    if n == 0 {
      source := [];
    } else {
      hide ListedFrom, IsContainerOf, Identified, ReadEntry;
      var before := ListIsSelection(entries, n - 1);
      var entry := ReadEntry(entries[n - 1]);
      EntryIsRead(entries[n - 1]);
      if entry.Some? {
        source := before + [n - 1];
        ListTake(ReadEntries(entries, n - 1), entries, n - 1, before, entry.value);
      } else {
        source := before;
        ListSkip(ReadEntries(entries, n - 1), entries, n - 1, before);
      }
    }
  }

  lemma EntryIsRead(entry: Json)
    ensures ReadEntry(entry).Some? <==> Identified(entry)
    ensures ReadEntry(entry).Some? ==> IsContainerOf(ReadEntry(entry).value, entry)
  {
    hide AllHex, NamesOf;
  }

  /** A name entry that is kept, as `name`: a string with something behind its leading slashes. */
  predicate IsNameOf(name: string, item: Json) {
    && item.Str? && name != "" && name[0] != '/'
    && |name| <= |item.s| && item.s[|item.s| - |name|..] == name
    && forall i :: 0 <= i < |item.s| - |name| ==> item.s[i] == '/'
  }

  /** A name entry that is dropped: no string, or nothing but slashes. */
  predicate NoName(item: Json) { !item.Str? || forall i :: 0 <= i < |item.s| ==> item.s[i] == '/' }

  /** `source` gives the position of each name's entry; the positions left out are exactly those without a name. */
  ghost predicate NamedFrom(names: seq<string>, items: seq<Json>, n: nat, source: seq<nat>)
    requires n <= |items|
  {
    && |source| == |names|
    && (forall k :: 0 <= k < |names| ==> source[k] < n && IsNameOf(names[k], items[source[k]]))
    && (forall j, k :: 0 <= j < k < |names| ==> source[j] < source[k])
    && (forall i: nat :: i in source <==> i < n && !NoName(items[i]))
  }

  lemma NameSkip(names: seq<string>, items: seq<Json>, n: nat, source: seq<nat>)
    requires n < |items| && NamedFrom(names, items, n, source) && NoName(items[n])
    ensures NamedFrom(names, items, n + 1, source)
  {
    hide IsNameOf, NoName;
  }

  lemma NameTake(names: seq<string>, items: seq<Json>, n: nat, source: seq<nat>, last: string)
    requires n < |items| && NamedFrom(names, items, n, source) && !NoName(items[n]) && IsNameOf(last, items[n])
    ensures NamedFrom(names + [last], items, n + 1, source + [n])
  {
    hide IsNameOf, NoName;
    var source' := source + [n];
    forall i: nat ensures i in source' <==> i < n + 1 && !NoName(items[i]) {
      assert i in source' <==> i in source || i == n;
    }
  }

  lemma NameIsRead(item: Json)
    requires item.Str?
    ensures NormalizeContainerName(item.s) == "" <==> NoName(item)
    ensures NormalizeContainerName(item.s) != "" ==> IsNameOf(NormalizeContainerName(item.s), item)
  {
    hide NormalizeContainerName;
    NormalizedName(item.s);
    var name := NormalizeContainerName(item.s);
    if name != "" { assert item.s[|item.s| - |name|] == name[0]; }
  }

  /** The names of a container are those of its list, in order, without leading slashes and without empty ones. */
  lemma {:induction false} NamesAreSelection(items: seq<Json>, n: nat) returns (source: seq<nat>)
    requires n <= |items|
    ensures NamedFrom(NamesOf(items, n), items, n, source)
  {
    if n == 0 {
      source := [];
    } else {
      hide NamedFrom, IsNameOf, NormalizeContainerName;
      var before := NamesAreSelection(items, n - 1);
      var item, names := items[n - 1], NamesOf(items, n - 1);
      if item.Str? { NameIsRead(item); }
      if item.Str? && NormalizeContainerName(item.s) != "" {
        source := before + [n - 1];
        NameTake(names, items, n - 1, before, NormalizeContainerName(item.s));
      } else {
        source := before;
        NameSkip(names, items, n - 1, before);
      }
    }
  }

  /** A response body is a container list exactly if it is a JSON array, and then its containers are those of its
      entries. */
  lemma ListOfBody(body: string, inRange: string -> bool) returns (source: seq<nat>)
    ensures ContainerList(body, inRange).Some? <==>
      JsonSpec.Parse(body, inRange).Some? && JsonSpec.Parse(body, inRange).value.Arr?
    ensures ContainerList(body, inRange).Some? ==>
      var entries := JsonSpec.Parse(body, inRange).value.items;
      ListedFrom(ContainerList(body, inRange).value, entries, |entries|, source)
  {
    hide JsonSpec.Parse, ListedFrom;
    source := [];
    var parsed := JsonSpec.Parse(body, inRange);
    if parsed.Some? && parsed.value.Arr? { source := ListIsSelection(parsed.value.items, |parsed.value.items|); }
  }
}
