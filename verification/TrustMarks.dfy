/** The issuer's log of trust marks and its backward scan: trust_mark_entity/__init__.py (FileDB) and entity.py. */
module TrustMarks {
  import opened Wrappers

  /** One line of a log file. */
  datatype Mark = Mark(id: string, sub: string, iat: int, exp: Option<int>)

  // ---- Specification of the scans ----

  predicate Expired(m: Mark, now: int) {
    m.exp.Some? && now > m.exp.value
  }

  /** `_match`; an `iat` of 0 matches any. */
  predicate Matches(m: Mark, sub: string, iat: int) {
    sub == m.sub && (iat == 0 || iat == m.iat)
  }

  /** The backward scan: stops at the first expired line, or at the first match. */
  function Scan(log: seq<Mark>, sub: string, iat: int, now: int): bool {
    if log == [] then false
    else if Expired(log[|log| - 1], now) then false
    else if Matches(log[|log| - 1], sub, iat) then true
    else Scan(log[..|log| - 1], sub, iat, now)
  }

  ghost predicate ValidAndAllLater(log: seq<Mark>, i: int, sub: string, iat: int, now: int) {
    0 <= i < |log| && log[i].sub == sub && (iat != 0 ==> log[i].iat == iat) &&
    forall j :: i <= j < |log| && log[j].exp.Some? ==> now <= log[j].exp.value
  }

  ghost predicate ValidMatch(log: seq<Mark>, i: int, sub: string, iat: int, now: int) {
    0 <= i < |log| && log[i].sub == sub && (iat != 0 ==> log[i].iat == iat) &&
    (log[i].exp.Some? ==> now <= log[i].exp.value)
  }

  /** On any log the scan finds a mark exactly when some matching line and all lines after it are unexpired. */
  lemma {:induction false} ScanMeans(log: seq<Mark>, sub: string, iat: int, now: int)
    ensures Scan(log, sub, iat, now) <==> exists i :: ValidAndAllLater(log, i, sub, iat, now)
  {
    if log != [] {
      var front, n := log[..|log| - 1], |log| - 1;
      ScanMeans(front, sub, iat, now);
      if Scan(log, sub, iat, now) {
        if Matches(log[n], sub, iat) {
          assert ValidAndAllLater(log, n, sub, iat, now);
        } else {
          var i :| ValidAndAllLater(front, i, sub, iat, now);
          assert ValidAndAllLater(log, i, sub, iat, now);
        }
      }
      if i :| ValidAndAllLater(log, i, sub, iat, now) {
        assert !Expired(log[n], now);
        if i < n {
          assert ValidAndAllLater(front, i, sub, iat, now);
        }
      }
    }
  }

  /** Expiry times never decrease along the log. */
  ghost predicate ExpiryOrdered(log: seq<Mark>) {
    forall i, j :: 0 <= i < j < |log| ==>
      match log[i].exp
      case None => log[j].exp.None?
      case Some(e) => log[j].exp.Some? && e <= log[j].exp.value
  }

  /** On such logs stopping early loses nothing. */
  lemma {:induction false} OrderedScanIsComplete(log: seq<Mark>, sub: string, iat: int, now: int)
    requires ExpiryOrdered(log)
    ensures Scan(log, sub, iat, now) <==> exists i :: ValidMatch(log, i, sub, iat, now)
  {
    ScanMeans(log, sub, iat, now);
    if i :| ValidMatch(log, i, sub, iat, now) {
      forall j | i <= j < |log|
        ensures !Expired(log[j], now)
      {
      }
      assert ValidAndAllLater(log, i, sub, iat, now);
    }
    if i :| ValidAndAllLater(log, i, sub, iat, now) {
      assert ValidMatch(log, i, sub, iat, now);
    }
  }

  /** Without that order the scan misses valid marks: a later, shorter-lived mark hides an earlier one. */
  lemma {:induction false} LaterExpiryHides(sub: string, other: string)
    requires sub != other
    ensures var log := [Mark("id", sub, 1, Some(100)), Mark("id", other, 2, Some(10))];
            !Scan(log, sub, 0, 50) && ValidMatch(log, 0, sub, 0, 50)
  {
  }

  /** The last line about a subject, or -1. */
  function LastPlace(log: seq<Mark>, sub: string): (r: int)
    ensures -1 <= r < |log|
    ensures r >= 0 ==> log[r].sub == sub
    ensures forall k :: r < k < |log| ==> log[k].sub != sub
  {
    if log == [] then -1
    else if log[|log| - 1].sub == sub then |log| - 1
    else LastPlace(log[..|log| - 1], sub)
  }

  // ---- FileDB ----

  /** `config` gives the file of every trust mark id; several ids may name the same file. */
  class FileDB {
    const config: map<string, string>
    var files: map<string, seq<Mark>>

    ghost predicate Valid()
      reads this
    {
      config.Values <= files.Keys
    }

    constructor (config: map<string, string>, existing: map<string, seq<Mark>>)
      ensures Valid() && this.config == config
      ensures forall f :: f in config.Values ==> f in files && files[f] == (if f in existing then existing[f] else [])
      ensures forall f :: f in existing ==> f in files && files[f] == existing[f]
    {
      this.config := config;
      files := (map f | f in config.Values :: []) + existing;
    }

    function LogOf(id: string): seq<Mark>
      requires Valid() && id in config
      reads this
    {
      files[config[id]]
    }

    /** A KeyError if there is no file for the id. */
    method Add(m: Mark) returns (ok: bool)
      requires Valid()
      modifies this
      ensures Valid() && (ok <==> m.id in config)
      ensures ok ==> files == old(files)[config[m.id] := old(files)[config[m.id]] + [m]]
      ensures !ok ==> files == old(files)
    {
      if m.id !in config {
        return false;
      }
      files := files[config[m.id] := files[config[m.id]] + [m]];
      ok := true;
    }

    method Find(id: string, sub: string, iat: int, now: int) returns (r: Result<bool>)
      requires Valid()
      ensures r == if id in config then Ok(Scan(LogOf(id), sub, iat, now)) else Failure
    {
      if id !in config {
        return Failure;
      }
      var lines := files[config[id]];
      var i := |lines|;
      assert lines[..i] == lines;
      while i > 0
        invariant 0 <= i <= |lines|
        invariant Scan(lines, sub, iat, now) == Scan(lines[..i], sub, iat, now)
      {
        i := i - 1;
        assert lines[..i + 1][..i] == lines[..i];
        if Expired(lines[i], now) {
          return Ok(false);
        }
        if Matches(lines[i], sub, iat) {
          return Ok(true);
        }
      }
      r := Ok(false);
    }

    /** `list`: every subject of the log (or just `sub`, if the log has it), each once, the most recently issued
        first; expiry plays no part. */
    method ListSubjects(id: string, sub: string) returns (res: seq<string>)
      requires Valid()
      ensures id !in config ==> res == []
      ensures id in config ==> forall s :: s in res <==> (sub == "" || s == sub) && LastPlace(LogOf(id), s) >= 0
      ensures id in config ==> forall i, j :: 0 <= i < j < |res| ==> LastPlace(LogOf(id), res[i]) > LastPlace(LogOf(id), res[j])
    {
      res := [];
      if id !in config {
        return;
      }
      var lines := files[config[id]];
      var i := |lines|;
      while i > 0
        invariant 0 <= i <= |lines|
        invariant forall s :: s in res <==> (sub == "" || s == sub) && LastPlace(lines, s) >= i
        invariant forall j, k :: 0 <= j < k < |res| ==> LastPlace(lines, res[j]) > LastPlace(lines, res[k])
      {
        i := i - 1;
        var found := lines[i].sub;
        if found !in res {
          if sub == "" || found == sub {
            assert LastPlace(lines, found) == i;
            res := res + [found];
          }
        }
        assert forall s :: LastPlace(lines, s) == i ==> s == found;
      }
    }

    /** `dump`, one entry per id. */
    function Dump(): map<string, seq<Mark>>
      requires Valid()
      reads this
    {
      map id | id in config :: LogOf(id)
    }

    /** `load`: appends the lines given for each id, id by id in some order; an id without lines is a KeyError, and
        what was appended before stays. */
    method Load(info: map<string, seq<Mark>>) returns (ok: bool)
      requires Valid()
      modifies this
      ensures Valid() && (ok <==> config.Keys <= info.Keys)
      ensures exists order :: LoadOrder(config, info, order) && (ok ==> forall id :: id in config ==> id in order) &&
                              files == Loaded(old(files), config, info, order)
    {
      var todo := config.Keys;
      ghost var order: seq<string> := [];
      while todo != {}
        invariant Valid() && todo <= config.Keys && config.Keys - todo <= info.Keys
        invariant LoadOrder(config, info, order) && forall id :: id in order <==> id in config && id !in todo
        invariant files.Keys == old(files.Keys) && files == Loaded(old(files), config, info, order)
      {
        var id :| id in todo;
        if id !in info {
          return false;
        }
        assert (order + [id])[..|order|] == order;
        files := files[config[id] := files[config[id]] + info[id]];
        order := order + [id];
        todo := todo - {id};
      }
      ok := true;
    }
  }

  /** Ids with a file and with lines to load, each at most once. */
  ghost predicate LoadOrder(config: map<string, string>, info: map<string, seq<Mark>>, order: seq<string>) {
    (forall id :: id in order ==> id in config && id in info) &&
    (forall i, j :: 0 <= i < j < |order| ==> order[i] != order[j])
  }

  /** The files after the lines of each id in turn have been appended to its file. */
  function Loaded(files: map<string, seq<Mark>>, config: map<string, string>, info: map<string, seq<Mark>>,
          order: seq<string>): (r: map<string, seq<Mark>>)
    requires config.Values <= files.Keys && forall id :: id in order ==> id in config && id in info
    ensures r.Keys == files.Keys
  {
    if order == [] then
      files
    else
      var id := order[|order| - 1];
      var before := Loaded(files, config, info, order[..|order| - 1]);
      assert config[id] in config.Values;
      before[config[id] := before[config[id]] + info[id]]
  }

  function Sharing(config: map<string, string>, f: string): set<string> {
    set id | id in config && config[id] == f
  }

  function Repeated(lines: seq<Mark>, times: nat): seq<Mark> {
    if times == 0 then [] else Repeated(lines, times - 1) + lines
  }

  lemma {:induction false} RepeatedLength(lines: seq<Mark>, times: nat)
    ensures |Repeated(lines, times)| == times * |lines|
  {
    if times > 0 {
      RepeatedLength(lines, times - 1);
    }
  }

  /** How many ids of the order name the file. */
  function TimesNamed(config: map<string, string>, order: seq<string>, f: string): nat
    requires forall id :: id in order ==> id in config
  {
    if order == [] then 0
    else TimesNamed(config, order[..|order| - 1], f) + if config[order[|order| - 1]] == f then 1 else 0
  }

  lemma {:induction false} TimesNamedCounts(config: map<string, string>, order: seq<string>, f: string)
    requires forall id :: id in order ==> id in config
    requires forall i, j :: 0 <= i < j < |order| ==> order[i] != order[j]
    ensures TimesNamed(config, order, f) == |set id | id in order && config[id] == f|
  {
    var named := set id | id in order && config[id] == f;
    if order != [] {
      var front, last := order[..|order| - 1], order[|order| - 1];
      assert order == front + [last] && last !in front;
      TimesNamedCounts(config, front, f);
      assert named - {last} == set id | id in front && config[id] == f;
      assert config[last] == f <==> last in named;
    }
  }

  /** Where the lines loaded for an id depend on its file alone, each file gets them once for every id that names it. */
  lemma {:induction false} LoadedLines(files: map<string, seq<Mark>>, config: map<string, string>,
          info: map<string, seq<Mark>>, order: seq<string>, f: string, lines: seq<Mark>)
    requires config.Values <= files.Keys && (forall id :: id in order ==> id in config && id in info) && f in files
    requires forall id :: id in order && config[id] == f ==> info[id] == lines
    ensures Loaded(files, config, info, order)[f] == files[f] + Repeated(lines, TimesNamed(config, order, f))
  {
    if order == [] {
      assert files[f] + [] == files[f];
    } else {
      var front, last := order[..|order| - 1], order[|order| - 1];
      LoadedLines(files, config, info, front, f, lines);
      var before := Repeated(lines, TimesNamed(config, front, f));
      assert (files[f] + before) + lines == files[f] + (before + lines);
    }
  }

  /** Dumping all logs and loading the dump into an empty database with the same files: a log comes back once for every
      id that names its file, so it is restored if and only if no other id does, or it is empty. */
  method DumpAndLoad(from: FileDB) returns (copy: FileDB)
    requires from.Valid()
    ensures fresh(copy) && copy.Valid() && copy.config == from.config
    ensures forall id :: id in from.config ==>
      copy.LogOf(id) == Repeated(from.LogOf(id), |Sharing(from.config, from.config[id])|) &&
      (copy.LogOf(id) == from.LogOf(id) <==> Sharing(from.config, from.config[id]) == {id} || from.LogOf(id) == [])
  {
    copy := new FileDB(from.config, map[]);
    ghost var empty, info := copy.files, from.Dump();
    var ok := copy.Load(from.Dump());
    ghost var order :| LoadOrder(copy.config, info, order) && (forall id :: id in copy.config ==> id in order) &&
                       copy.files == Loaded(empty, copy.config, info, order);
    forall id | id in from.config
      ensures copy.LogOf(id) == Repeated(from.LogOf(id), |Sharing(from.config, from.config[id])|)
      ensures copy.LogOf(id) == from.LogOf(id) <==> Sharing(from.config, from.config[id]) == {id} || from.LogOf(id) == []
    {
      var f := from.config[id];
      LoadedLines(empty, copy.config, info, order, f, from.LogOf(id));
      TimesNamedCounts(copy.config, order, f);
      assert (set x | x in order && copy.config[x] == f) == Sharing(from.config, f);
      RestoredIff(from.config, id, from.LogOf(id));
    }
  }

  lemma RestoredIff(config: map<string, string>, id: string, lines: seq<Mark>)
    requires id in config
    ensures Repeated(lines, |Sharing(config, config[id])|) == lines <==> Sharing(config, config[id]) == {id} || lines == []
  {
    var n := |Sharing(config, config[id])|;
    RepeatedLength(lines, n);
    assert id in Sharing(config, config[id]);
    if n == 1 {
      OneElement(Sharing(config, config[id]), id);
      assert Repeated(lines, 0) + lines == lines;
    } else {
      assert Sharing(config, config[id]) != {id};
      if lines != [] {
        assert n > 1;
        assert n * |lines| > |lines|;
      }
    }
  }

  lemma OneElement(s: set<string>, x: string)
    requires x in s && |s| == 1
    ensures s == {x}
  {
    assert |s - {x}| == 0;
  }

  // ---- The issuer ----

  /** A trust mark specification: the claims it fixes for every mark, of which only `exp` matters here. */
  datatype MarkSpec = MarkSpec(exp: Option<int>)

  /** Extra claims that override those of the mark; id and subject are parameters of their own. */
  datatype Overrides = Overrides(iat: Option<int>, exp: Option<int>)

  const NO_OVERRIDES := Overrides(None, None)

  /** The line `create_trust_mark` writes: the specification, updated by the issuer's claims, then by the extra claims.
      A lifetime of 0 counts as none. */
  function MarkFor(spec: MarkSpec, lifetime: Option<nat>, id: string, sub: string, extra: Overrides, now: int): Mark {
    var exp := if lifetime.Some? && lifetime.value != 0 then Some(now + lifetime.value) else spec.exp;
    Mark(id, sub,
         if extra.iat.Some? then extra.iat.value else now,
         if extra.exp.Some? then extra.exp else exp)
  }

  class TrustMarkEntity {
    const specification: map<string, MarkSpec>
    const lifetime: map<string, nat>
    const issued: FileDB

    constructor (specification: map<string, MarkSpec>, lifetime: map<string, nat>, issued: FileDB)
      ensures this.specification == specification && this.lifetime == lifetime && this.issued == issued
    {
      this.specification, this.lifetime, this.issued := specification, lifetime, issued;
    }

    /** `create_trust_mark`: raises for an unknown id, or if there is no file for it. */
    method CreateTrustMark(id: string, sub: string, extra: Overrides, now: int) returns (ok: bool)
      requires issued.Valid()
      modifies issued
      ensures issued.Valid()
      ensures ok <==> id in specification && id in issued.config
      ensures ok ==>
        var m := MarkFor(specification[id], Lookup(lifetime, id), id, sub, extra, now);
        issued.files == old(issued.files)[issued.config[id] := old(issued.files)[issued.config[id]] + [m]] &&
        m.id == id && m.sub == sub && m.iat == (if extra.iat.Some? then extra.iat.value else now) &&
        m.exp == (if extra.exp.Some? then extra.exp
                  else if id in lifetime && lifetime[id] > 0 then Some(now + lifetime[id])
                  else specification[id].exp)
      ensures !ok ==> issued.files == old(issued.files)
    {
      if id !in specification {
        return false;
      }
      ok := issued.Add(MarkFor(specification[id], Lookup(lifetime, id), id, sub, extra, now));
    }

    /** `find` */
    method Find(id: string, sub: string, iat: int, now: int) returns (r: Result<bool>)
      requires issued.Valid()
      ensures r == if id in issued.config then Ok(Scan(issued.LogOf(id), sub, iat, now)) else Failure
    {
      r := issued.Find(id, sub, iat, now);
    }
  }

  /** A request to issue a mark without extra claims. */
  datatype Request = Request(id: string, sub: string, now: int)

  /** The marks for one id that a run of requests leaves in its log. */
  function LogAfter(spec: MarkSpec, lifetime: Option<nat>, id: string, requests: seq<Request>): seq<Mark> {
    if requests == [] then
      []
    else
      var r := requests[|requests| - 1];
      LogAfter(spec, lifetime, id, requests[..|requests| - 1]) +
      (if r.id == id then [MarkFor(spec, lifetime, id, r.sub, NO_OVERRIDES, r.now)] else [])
  }

  ghost predicate ClockForward(requests: seq<Request>) {
    forall i, j :: 0 <= i < j < |requests| ==> requests[i].now <= requests[j].now
  }

  /** What one request adds to a file: nothing if it is for an unknown id, or one without a file or with another. */
  function LineFor(specification: map<string, MarkSpec>, lifetime: map<string, nat>, config: map<string, string>, f: string,
                   r: Request): seq<Mark>
  {
    if r.id in specification && r.id in config && config[r.id] == f
    then [MarkFor(specification[r.id], Lookup(lifetime, r.id), r.id, r.sub, NO_OVERRIDES, r.now)] else []
  }

  /** The lines a run of requests adds to one file. */
  function LinesFor(specification: map<string, MarkSpec>, lifetime: map<string, nat>, config: map<string, string>, f: string,
                    requests: seq<Request>): seq<Mark>
  {
    if requests == [] then
      []
    else
      LinesFor(specification, lifetime, config, f, requests[..|requests| - 1]) +
      LineFor(specification, lifetime, config, f, requests[|requests| - 1])
  }

  /** Every file has grown by the lines of the first `n` requests. */
  ghost predicate WrittenUpTo(entity: TrustMarkEntity, before: map<string, seq<Mark>>, requests: seq<Request>, n: nat)
    requires n <= |requests|
    reads entity.issued
  {
    entity.issued.files.Keys == before.Keys &&
    forall f :: f in before ==>
      entity.issued.files[f] ==
        before[f] + LinesFor(entity.specification, entity.lifetime, entity.issued.config, f, requests[..n])
  }

  method IssueNext(entity: TrustMarkEntity, ghost before: map<string, seq<Mark>>, requests: seq<Request>, i: nat)
    requires entity.issued.Valid() && i < |requests| && WrittenUpTo(entity, before, requests, i)
    modifies entity.issued
    ensures entity.issued.Valid() && WrittenUpTo(entity, before, requests, i + 1)
  {
    var r := requests[i];
    assert requests[..i + 1][..i] == requests[..i];
    ghost var sofar := entity.issued.files;
    var ok := entity.CreateTrustMark(r.id, r.sub, NO_OVERRIDES, r.now);
    forall f | f in before
      ensures entity.issued.files[f] ==
        before[f] + LinesFor(entity.specification, entity.lifetime, entity.issued.config, f, requests[..i + 1])
    {
      var line := LineFor(entity.specification, entity.lifetime, entity.issued.config, f, r);
      assert entity.issued.files[f] == sofar[f] + line by {
        assert sofar[f] + [] == sofar[f];
      }
      var lines := LinesFor(entity.specification, entity.lifetime, entity.issued.config, f, requests[..i]);
      assert (before[f] + lines) + line == before[f] + (lines + line);
    }
  }

  /** A run of the issuer appends exactly these lines to every file. */
  method IssueAll(entity: TrustMarkEntity, requests: seq<Request>)
    requires entity.issued.Valid()
    modifies entity.issued
    ensures entity.issued.Valid() && WrittenUpTo(entity, old(entity.issued.files), requests, |requests|)
  {
    ghost var before := entity.issued.files;
    var i := 0;
    while i < |requests|
      invariant 0 <= i <= |requests| && entity.issued.Valid() && WrittenUpTo(entity, before, requests, i)
    {
      IssueNext(entity, before, requests, i);
      i := i + 1;
    }
  }

  /** Where no other id shares its file, these are the marks requested for the id. */
  lemma {:induction false} LinesAreLog(specification: map<string, MarkSpec>, lifetime: map<string, nat>,
          config: map<string, string>, id: string, requests: seq<Request>)
    requires id in specification && id in config && Sharing(config, config[id]) == {id}
    ensures LinesFor(specification, lifetime, config, config[id], requests) ==
            LogAfter(specification[id], Lookup(lifetime, id), id, requests)
  {
    if requests != [] {
      var r := requests[|requests| - 1];
      LinesAreLog(specification, lifetime, config, id, requests[..|requests| - 1]);
      assert r.id in config && config[r.id] == config[id] ==> r.id in Sharing(config, config[id]);
    }
  }

  lemma {:induction false} IssuerKeepsOrder(spec: MarkSpec, lifetime: Option<nat>, id: string, requests: seq<Request>,
          now: int)
    requires ClockForward(requests) && forall i :: 0 <= i < |requests| ==> requests[i].now <= now
    ensures ExpiryOrdered(LogAfter(spec, lifetime, id, requests))
    ensures forall i :: 0 <= i < |LogAfter(spec, lifetime, id, requests)| ==>
      var exp := LogAfter(spec, lifetime, id, requests)[i].exp;
      if lifetime.Some? && lifetime.value != 0 then exp.Some? && exp.value <= now + lifetime.value else exp == spec.exp
  {
    if requests != [] {
      var front, r := requests[..|requests| - 1], requests[|requests| - 1];
      IssuerKeepsOrder(spec, lifetime, id, front, r.now);
    }
  }

  /** On every log the issuer writes with a fixed lifetime per id, a clock that does not run backwards and no
      extra claims, the backward scan finds a mark exactly when some matching mark is unexpired. */
  lemma {:induction false} IssuedScanIsComplete(spec: MarkSpec, lifetime: Option<nat>, id: string,
          requests: seq<Request>, sub: string, iat: int, now: int)
    requires ClockForward(requests)
    ensures var log := LogAfter(spec, lifetime, id, requests);
            Scan(log, sub, iat, now) <==> exists i :: ValidMatch(log, i, sub, iat, now)
  {
    if requests == [] {
      assert LogAfter(spec, lifetime, id, requests) == [];
    } else {
      IssuerKeepsOrder(spec, lifetime, id, requests, requests[|requests| - 1].now);
      OrderedScanIsComplete(LogAfter(spec, lifetime, id, requests), sub, iat, now);
    }
  }
}
