/**
 * The plugin's commands over its two tables (src/index.ts): an in-memory store of idols
 * and wall records with auto-increment ids, lookup-or-create of an idol, adding one
 * record or a batch of them, listing records, deleting one, and the statistics.
 */
module Store {
  import opened Wrappers
  import JsString
  import Bucketing
  import Model

  datatype Idol = Idol(id: nat, nickname: string, guildId: string, isRecording: bool)

  /** A wall record; `time` is None for records from the batch import. */
  datatype WallRecord = WallRecord(id: nat, idolId: nat, description: string, time: Option<int>,
                                   guildId: string, version: string)

  const DefaultGuild := "console"
  const RebuildReply := "宝塔镇河妖"
  const AllVersions := "all"

  /** `session.guildId ? session.guildId : "console"`: a missing or empty guild id is the console. */
  function GuildOf(sessionGuild: Option<string>): (g: string)
    ensures g != ""
    ensures sessionGuild.Some? && sessionGuild.value != "" ==> g == sessionGuild.value
    ensures sessionGuild.None? || sessionGuild.value == "" ==> g == DefaultGuild
  {
    if sessionGuild.Some? && sessionGuild.value != "" then sessionGuild.value else DefaultGuild
  }

  // ---------------------------------------------------------------------------
  // Table invariants
  // ---------------------------------------------------------------------------

  predicate IsIdol(idol: Idol, nickname: string, guild: string) {
    idol.nickname == nickname && idol.guildId == guild
  }

  /** Idol ids increase with insertion, and no two idols share a (nickname, guild_id). */
  predicate IdolsValid(idols: seq<Idol>, nextId: nat) {
    1 <= nextId &&
    (forall i :: 0 <= i < |idols| ==> 1 <= idols[i].id < nextId) &&
    (forall i, j :: 0 <= i < j < |idols| ==> idols[i].id < idols[j].id) &&
    (forall i, j :: 0 <= i < j < |idols| ==> !IsIdol(idols[j], idols[i].nickname, idols[i].guildId))
  }

  /** Some idol has this id and this guild: the records' foreign key, resolved within the record's guild. */
  predicate HasIdol(idols: seq<Idol>, id: nat, guild: string) {
    exists j :: 0 <= j < |idols| && idols[j].id == id && idols[j].guildId == guild
  }

  /** Record ids increase with insertion, and every record refers to an idol of its own guild. */
  predicate RecordsValid(records: seq<WallRecord>, idols: seq<Idol>, nextId: nat) {
    1 <= nextId &&
    (forall i :: 0 <= i < |records| ==> 1 <= records[i].id < nextId) &&
    IdsIncrease(records) &&
    (forall i :: 0 <= i < |records| ==> HasIdol(idols, records[i].idolId, records[i].guildId))
  }

  /** The index of the first idol with this (nickname, guild_id), as `get(...)[0]` finds it. */
  function FindIdol(idols: seq<Idol>, nickname: string, guild: string): (r: Option<nat>)
    ensures r.Some? ==> r.value < |idols| && IsIdol(idols[r.value], nickname, guild) &&
                        forall k :: 0 <= k < r.value ==> !IsIdol(idols[k], nickname, guild)
    ensures r.None? ==> forall k :: 0 <= k < |idols| ==> !IsIdol(idols[k], nickname, guild)
  {
    if idols == [] then None
    else if IsIdol(idols[0], nickname, guild) then Some(0)
    else match FindIdol(idols[1..], nickname, guild)
      case None => None
      case Some(k) => Some(k + 1)
  }

  // ---------------------------------------------------------------------------
  // Batch import lines: name, description, version
  // ---------------------------------------------------------------------------

  datatype ImportLine = ImportLine(name: string, description: string, version: string)

  /** `words.map(s => s.trim())`. */
  function TrimAll(words: seq<string>): seq<string> {
    seq(|words|, i requires 0 <= i < |words| => JsString.Trim(words[i]))
  }

  /** `words[i]`, and the empty string where the line has fewer fields. */
  function FieldAt(words: seq<string>, i: nat): string {
    if i < |words| then words[i] else ""
  }

  /** One line of the batch import: split on ',', each piece trimmed; fields 0, 1 and 2. */
  function ParseLine(line: string): ImportLine {
    var words := TrimAll(JsString.Split(line, ','));
    ImportLine(words[0], FieldAt(words, 1), FieldAt(words, 2))
  }

  /** Each parsed field is trimmed and holds no ',': it is one trimmed piece of the line. */
  lemma ParseLineFields(line: string)
    ensures var p := ParseLine(line);
      JsString.IsTrimmed(p.name) && JsString.IsTrimmed(p.description) && JsString.IsTrimmed(p.version) &&
      ',' !in p.name && ',' !in p.description && ',' !in p.version
  {
    var pieces := JsString.Split(line, ',');
    forall i | 0 <= i < |pieces| ensures ',' !in JsString.Trim(pieces[i]) {
      JsString.TrimWithout(pieces[i], ',');
    }
  }

  /** The text of a line, fields joined by ','. */
  function LineText(p: ImportLine): string {
    JsString.Join([p.name, p.description, p.version], ',')
  }

  /** A line written from trimmed, comma-free fields parses back to those fields. */
  lemma ParseLineText(p: ImportLine)
    requires JsString.IsTrimmed(p.name) && JsString.IsTrimmed(p.description) && JsString.IsTrimmed(p.version)
    requires ',' !in p.name && ',' !in p.description && ',' !in p.version
    ensures ParseLine(LineText(p)) == p
  {
    var parts := [p.name, p.description, p.version];
    JsString.SplitJoin(parts, ',');
  }

  /** The lines of the imported text: one per '\n', plus one. */
  function ImportLines(text: string): (lines: seq<string>)
    ensures |lines| == JsString.Occurrences(text, '\n') + 1
    ensures forall k :: 0 <= k < |lines| ==> '\n' !in lines[k]
  {
    JsString.Split(text, '\n')
  }

  /** The parsed lines of the import, in order. */
  function ParseLines(lines: seq<string>): seq<ImportLine> {
    seq(|lines|, k requires 0 <= k < |lines| => ParseLine(lines[k]))
  }

  /** What the batch import made of one parsed line: the record and the idol it refers to. */
  predicate ImportedAs(r: WallRecord, p: ImportLine, guild: string, idols: seq<Idol>) {
    r.description == p.description && r.version == p.version && r.time == None && r.guildId == guild &&
    exists j :: 0 <= j < |idols| && idols[j].id == r.idolId && IsIdol(idols[j], p.name, guild)
  }

  lemma ImportedGrows(r: WallRecord, p: ImportLine, guild: string, idols: seq<Idol>, more: seq<Idol>)
    requires ImportedAs(r, p, guild, idols) && idols <= more
    ensures ImportedAs(r, p, guild, more)
  {
    var j :| 0 <= j < |idols| && idols[j].id == r.idolId && IsIdol(idols[j], p.name, guild);
    assert more[j] == idols[j];
  }

  /** The records are what the batch import made of the parsed lines, one each, in order. */
  predicate ImportedAll(recs: seq<WallRecord>, parsed: seq<ImportLine>, guild: string, idols: seq<Idol>) {
    |recs| == |parsed| &&
    (parsed == [] ||
     (ImportedAll(recs[..|recs| - 1], parsed[..|parsed| - 1], guild, idols) &&
      ImportedAs(recs[|recs| - 1], parsed[|parsed| - 1], guild, idols)))
  }

  lemma {:induction false} ImportedAllGrows(recs: seq<WallRecord>, parsed: seq<ImportLine>, guild: string,
                                            idols: seq<Idol>, more: seq<Idol>)
    requires ImportedAll(recs, parsed, guild, idols) && idols <= more
    ensures ImportedAll(recs, parsed, guild, more)
  {
    if parsed != [] {
      ImportedAllGrows(recs[..|recs| - 1], parsed[..|parsed| - 1], guild, idols, more);
      ImportedGrows(recs[|recs| - 1], parsed[|parsed| - 1], guild, idols, more);
    }
  }

  /**
   * Record by record: the k-th record has the description and version of the k-th
   * parsed line, no time, the caller's guild, and an idol of that guild named by the line.
   */
  lemma {:induction false} ImportedAllPointwise(recs: seq<WallRecord>, parsed: seq<ImportLine>, guild: string, idols: seq<Idol>)
    requires ImportedAll(recs, parsed, guild, idols)
    ensures |recs| == |parsed| && forall k :: 0 <= k < |parsed| ==> ImportedAs(recs[k], parsed[k], guild, idols)
  {
    if parsed != [] {
      var n := |parsed| - 1;
      ImportedAllPointwise(recs[..n], parsed[..n], guild, idols);
      forall k | 0 <= k < n ensures ImportedAs(recs[k], parsed[k], guild, idols) {
        assert recs[..n][k] == recs[k] && parsed[..n][k] == parsed[k];
      }
    }
  }

  lemma ImportedAllStep(recs: seq<WallRecord>, record: WallRecord, parsed: seq<ImportLine>, p: ImportLine,
                        guild: string, idols: seq<Idol>)
    requires ImportedAll(recs, parsed, guild, idols) && ImportedAs(record, p, guild, idols)
    ensures ImportedAll(recs + [record], parsed + [p], guild, idols)
  {
    assert (recs + [record])[..|recs|] == recs && (parsed + [p])[..|parsed|] == parsed;
  }

  lemma AppendSlices(a: seq<WallRecord>, x: WallRecord, n: nat)
    requires n <= |a|
    ensures (a + [x])[..n] == a[..n] && (a + [x])[n..] == a[n..] + [x]
  {
  }

  lemma ParseLinesStep(lines: seq<string>, i: nat)
    requires i < |lines|
    ensures ParseLines(lines[..i + 1]) == ParseLines(lines[..i]) + [ParseLine(lines[i])]
  {
    var a, b := ParseLines(lines[..i + 1]), ParseLines(lines[..i]) + [ParseLine(lines[i])];
    forall k | 0 <= k < |a| ensures a[k] == b[k] {
      assert lines[..i + 1][k] == lines[k];
      if k < i {
        assert lines[..i][k] == lines[k];
      }
    }
  }

  // ---------------------------------------------------------------------------
  // The records query: join, filters, projection, the reply text
  // ---------------------------------------------------------------------------

  /** The idols joined to one record: those whose id is its `idol_id`. */
  function PairsOf(idols: seq<Idol>, r: WallRecord): seq<(Idol, WallRecord)> {
    if idols == [] then []
    else (if idols[0].id == r.idolId then [(idols[0], r)] else []) + PairsOf(idols[1..], r)
  }

  /** The inner join of records and idols on `records.idol_id = idols.id`, in record order. */
  function Joined(idols: seq<Idol>, records: seq<WallRecord>): seq<(Idol, WallRecord)> {
    if records == [] then []
    else Joined(idols, records[..|records| - 1]) + PairsOf(idols, records[|records| - 1])
  }

  lemma {:induction false} PairsOfMembers(idols: seq<Idol>, r: WallRecord, idol: Idol)
    ensures (idol, r) in PairsOf(idols, r) <==> idol in idols && idol.id == r.idolId
    ensures forall p :: p in PairsOf(idols, r) ==> p.1 == r
  {
    if idols != [] {
      PairsOfMembers(idols[1..], r, idol);
      assert idols == [idols[0]] + idols[1..];
    }
  }

  /** A pair is in the join exactly when its idol and record are in the tables and the ids match. */
  lemma {:induction false} JoinedMembers(idols: seq<Idol>, records: seq<WallRecord>, idol: Idol, r: WallRecord)
    ensures (idol, r) in Joined(idols, records) <==> idol in idols && r in records && idol.id == r.idolId
  {
    if records != [] {
      var init, last := records[..|records| - 1], records[|records| - 1];
      JoinedMembers(idols, init, idol, r);
      PairsOfMembers(idols, last, idol);
      assert records == init + [last];
      if (idol, r) in PairsOf(idols, last) {
        assert r == last;
      }
    }
  }

  /** One line of the records listing before formatting: `{ name, description, id }`. */
  datatype Listing = Listing(name: string, description: string, id: nat)

  /** `if (options.name)`: a missing or empty name does not filter. */
  predicate NameMatches(name: Option<string>, nickname: string) {
    name.None? || name.value == "" || nickname == name.value
  }

  /** The three `where` clauses of the records query: the guild, the version unless 'all', the name. */
  predicate Wanted(p: (Idol, WallRecord), guild: string, version: string, name: Option<string>) {
    p.1.guildId == guild && (version == AllVersions || p.1.version == version) && NameMatches(name, p.0.nickname)
  }

  function ListingOf(p: (Idol, WallRecord)): Listing {
    Listing(p.0.nickname, p.1.description, p.1.id)
  }

  function SelectListings(pairs: seq<(Idol, WallRecord)>, guild: string, version: string, name: Option<string>): seq<Listing> {
    if pairs == [] then []
    else SelectListings(pairs[..|pairs| - 1], guild, version, name) +
         (if Wanted(pairs[|pairs| - 1], guild, version, name) then [ListingOf(pairs[|pairs| - 1])] else [])
  }

  lemma {:induction false} SelectListingsMembers(pairs: seq<(Idol, WallRecord)>, guild: string, version: string,
                                                 name: Option<string>, l: Listing)
    ensures l in SelectListings(pairs, guild, version, name) <==>
            exists p :: p in pairs && Wanted(p, guild, version, name) && ListingOf(p) == l
  {
    if pairs != [] {
      var init, last := pairs[..|pairs| - 1], pairs[|pairs| - 1];
      SelectListingsMembers(init, guild, version, name, l);
      assert pairs == init + [last];
      if l in SelectListings(init, guild, version, name) {
        var p :| p in init && Wanted(p, guild, version, name) && ListingOf(p) == l;
        assert p in pairs;
      }
    }
  }

  /** The version the listing filters on: the argument, or the configured version when it is missing. */
  function ResolveVersion(version: Option<string>, configVersion: string): string {
    version.GetOr(configVersion)
  }

  /**
   * The records query returns a listing exactly for each idol and record of the store
   * that join and pass the filters: the record is of the caller's guild, of the resolved
   * version unless that is 'all', and of the idol named, when a name is given.
   */
  lemma ListingsSoundAndComplete(idols: seq<Idol>, records: seq<WallRecord>, guild: string,
                                 version: Option<string>, configVersion: string, name: Option<string>, l: Listing)
    ensures var v := ResolveVersion(version, configVersion);
      l in SelectListings(Joined(idols, records), guild, v, name) <==>
      exists idol, r :: idol in idols && r in records && idol.id == r.idolId &&
        r.guildId == guild && (v == AllVersions || r.version == v) && NameMatches(name, idol.nickname) &&
        l == Listing(idol.nickname, r.description, r.id)
  {
    var v := ResolveVersion(version, configVersion);
    var pairs := Joined(idols, records);
    SelectListingsMembers(pairs, guild, v, name, l);
    if l in SelectListings(pairs, guild, v, name) {
      var p :| p in pairs && Wanted(p, guild, v, name) && ListingOf(p) == l;
      JoinedMembers(idols, records, p.0, p.1);
    }
    forall idol, r | idol in idols && r in records && idol.id == r.idolId &&
        r.guildId == guild && (v == AllVersions || r.version == v) && NameMatches(name, idol.nickname) &&
        l == Listing(idol.nickname, r.description, r.id)
      ensures l in SelectListings(pairs, guild, v, name)
    {
      JoinedMembers(idols, records, idol, r);
      assert Wanted((idol, r), guild, v, name) && ListingOf((idol, r)) == l;
    }
  }

  /** One reply line: `ID: <id> ` when ids are asked for, then the name and the description. */
  function FormatListing(l: Listing, showIds: bool): string {
    (if showIds then "ID: " + JsString.NatToString(l.id) + " " else "") + l.name + " " + l.description
  }

  function FormatListings(listings: seq<Listing>, showIds: bool): seq<string> {
    seq(|listings|, i requires 0 <= i < |listings| => FormatListing(listings[i], showIds))
  }

  /** The reply to the records command: the lines joined by '\n'. */
  function RecordsReply(listings: seq<Listing>, showIds: bool): string {
    JsString.Join(FormatListings(listings, showIds), '\n')
  }

  /**
   * The reply is empty for no listing; otherwise, when no name or description holds a
   * '\n', it splits back into exactly one line per listing, in order.
   */
  lemma RecordsReplyLines(listings: seq<Listing>, showIds: bool)
    requires forall i :: 0 <= i < |listings| ==> '\n' !in listings[i].name && '\n' !in listings[i].description
    ensures listings == [] ==> RecordsReply(listings, showIds) == ""
    ensures listings != [] ==> JsString.Split(RecordsReply(listings, showIds), '\n') == FormatListings(listings, showIds)
  {
    var lines := FormatListings(listings, showIds);
    if listings != [] {
      forall i | 0 <= i < |lines| ensures '\n' !in lines[i] {
        var idText := if showIds then "ID: " + JsString.NatToString(listings[i].id) + " " else "";
        assert forall k :: 0 <= k < |JsString.NatToString(listings[i].id)| ==> JsString.NatToString(listings[i].id)[k] != '\n';
        assert '\n' !in idText;
        assert lines[i] == idText + listings[i].name + " " + listings[i].description;
      }
      JsString.SplitJoin(lines, '\n');
    }
  }

  // ---------------------------------------------------------------------------
  // The statistics query rows
  // ---------------------------------------------------------------------------

  /** The joined rows of the caller's guild, as (nickname, version). */
  function StatRows(pairs: seq<(Idol, WallRecord)>, guild: string): seq<Bucketing.Row> {
    if pairs == [] then []
    else StatRows(pairs[..|pairs| - 1], guild) +
         (var p := pairs[|pairs| - 1]; if p.1.guildId == guild then [Bucketing.Row(p.0.nickname, p.1.version)] else [])
  }

  /** The records of a guild. */
  function OfGuild(records: seq<WallRecord>, guild: string): seq<WallRecord> {
    if records == [] then []
    else OfGuild(records[..|records| - 1], guild) +
         (if records[|records| - 1].guildId == guild then [records[|records| - 1]] else [])
  }

  /** Number of records of a guild with a given version. */
  function GuildVersionCount(records: seq<WallRecord>, guild: string, version: string): nat {
    if records == [] then 0
    else GuildVersionCount(records[..|records| - 1], guild, version) +
         (var r := records[|records| - 1]; if r.guildId == guild && r.version == version then 1 else 0)
  }

  lemma {:induction false} StatRowsConcat(a: seq<(Idol, WallRecord)>, b: seq<(Idol, WallRecord)>, guild: string)
    ensures StatRows(a + b, guild) == StatRows(a, guild) + StatRows(b, guild)
  {
    if b == [] {
      assert a + b == a;
    } else {
      StatRowsConcat(a, b[..|b| - 1], guild);
      assert (a + b)[..|a + b| - 1] == a + b[..|b| - 1];
    }
  }

  lemma {:induction false} JoinedConcat(idols: seq<Idol>, a: seq<WallRecord>, b: seq<WallRecord>)
    ensures Joined(idols, a + b) == Joined(idols, a) + Joined(idols, b)
  {
    if b == [] {
      assert a + b == a;
    } else {
      JoinedConcat(idols, a, b[..|b| - 1]);
      assert (a + b)[..|a + b| - 1] == a + b[..|b| - 1];
    }
  }

  /** Rows of records of other guilds never reach the statistics: only the caller's guild counts. */
  lemma {:induction false} StatRowsIsolated(idols: seq<Idol>, records: seq<WallRecord>, guild: string)
    ensures StatRows(Joined(idols, records), guild) == StatRows(Joined(idols, OfGuild(records, guild)), guild)
  {
    if records != [] {
      var init, last := records[..|records| - 1], records[|records| - 1];
      StatRowsIsolated(idols, init, guild);
      StatRowsConcat(Joined(idols, init), PairsOf(idols, last), guild);
      var mine := if last.guildId == guild then [last] else [];
      assert OfGuild(records, guild) == OfGuild(init, guild) + mine;
      JoinedConcat(idols, OfGuild(init, guild), mine);
      StatRowsConcat(Joined(idols, OfGuild(init, guild)), Joined(idols, mine), guild);
      LastRecordRows(idols, last, guild);
    }
  }

  /** The rows one record contributes are those of its own join when it is of the guild, none otherwise. */
  lemma LastRecordRows(idols: seq<Idol>, last: WallRecord, guild: string)
    ensures StatRows(Joined(idols, if last.guildId == guild then [last] else []), guild) ==
            StatRows(PairsOf(idols, last), guild)
  {
    if last.guildId == guild {
      var one := [last];
      assert one[..|one| - 1] == [] && one[|one| - 1] == last;
      assert Joined(idols, one) == PairsOf(idols, last);
    } else {
      PairsOfRecord(idols, last);
      StatRowsOtherGuild(PairsOf(idols, last), last, guild);
    }
  }

  lemma {:induction false} StatRowsOtherGuild(pairs: seq<(Idol, WallRecord)>, r: WallRecord, guild: string)
    requires r.guildId != guild && forall k :: 0 <= k < |pairs| ==> pairs[k].1 == r
    ensures StatRows(pairs, guild) == []
  {
    if pairs != [] {
      StatRowsOtherGuild(pairs[..|pairs| - 1], r, guild);
    }
  }

  lemma {:induction false} PairsOfRecord(idols: seq<Idol>, r: WallRecord)
    ensures forall k :: 0 <= k < |PairsOf(idols, r)| ==> PairsOf(idols, r)[k].1 == r
  {
    if idols != [] {
      PairsOfRecord(idols[1..], r);
    }
  }

  /** With increasing idol ids, a record whose idol exists joins exactly once, to an idol of its guild. */
  lemma {:induction false} PairsOfUnique(idols: seq<Idol>, r: WallRecord)
    requires forall i, j :: 0 <= i < j < |idols| ==> idols[i].id < idols[j].id
    requires HasIdol(idols, r.idolId, r.guildId)
    ensures |PairsOf(idols, r)| == 1
    ensures PairsOf(idols, r)[0].1 == r && PairsOf(idols, r)[0].0.guildId == r.guildId
  {
    if idols[0].id == r.idolId {
      assert idols[0].guildId == r.guildId by {
        var j :| 0 <= j < |idols| && idols[j].id == r.idolId && idols[j].guildId == r.guildId;
        if j > 0 {
          assert idols[0].id < idols[j].id;
        }
      }
      NoPairsAfter(idols[1..], r);
    } else {
      var j :| 0 <= j < |idols| && idols[j].id == r.idolId && idols[j].guildId == r.guildId;
      assert idols[1..][j - 1] == idols[j];
      PairsOfUnique(idols[1..], r);
    }
  }

  lemma {:induction false} NoPairsAfter(idols: seq<Idol>, r: WallRecord)
    requires forall k :: 0 <= k < |idols| ==> idols[k].id > r.idolId
    ensures PairsOf(idols, r) == []
  {
    if idols != [] {
      NoPairsAfter(idols[1..], r);
    }
  }

  /**
   * In a store whose records all resolve to an idol, the statistics rows of a guild have
   * exactly as many rows of a version as the guild has records of that version.
   */
  lemma {:induction false} StatRowsCountRecords(idols: seq<Idol>, records: seq<WallRecord>, guild: string, version: string)
    requires forall i, j :: 0 <= i < j < |idols| ==> idols[i].id < idols[j].id
    requires forall i :: 0 <= i < |records| ==> HasIdol(idols, records[i].idolId, records[i].guildId)
    ensures Bucketing.VersionCount(StatRows(Joined(idols, records), guild), version) ==
            GuildVersionCount(records, guild, version)
  {
    if records != [] {
      var init, last := records[..|records| - 1], records[|records| - 1];
      assert forall i :: 0 <= i < |init| ==> init[i] == records[i];
      StatRowsCountRecords(idols, init, guild, version);
      StatRowsConcat(Joined(idols, init), PairsOf(idols, last), guild);
      Bucketing.VersionCountConcat(StatRows(Joined(idols, init), guild), StatRows(PairsOf(idols, last), guild), version);
      OneRecordRows(idols, last, guild, version);
    }
  }

  /** A record that resolves contributes one row to its own guild's statistics and none to another's. */
  lemma OneRecordRows(idols: seq<Idol>, r: WallRecord, guild: string, version: string)
    requires forall i, j :: 0 <= i < j < |idols| ==> idols[i].id < idols[j].id
    requires HasIdol(idols, r.idolId, r.guildId)
    ensures Bucketing.VersionCount(StatRows(PairsOf(idols, r), guild), version) ==
            (if r.guildId == guild && r.version == version then 1 else 0)
  {
    PairsOfUnique(idols, r);
    var pairs := PairsOf(idols, r);
    assert pairs == [pairs[0]];
    assert pairs[..0] == [];
  }

  // ---------------------------------------------------------------------------
  // Delete
  // ---------------------------------------------------------------------------

  datatype DeleteOutcome = MissingId | NotFound | Deleted

  /** The records without those of the given id, in their order. */
  function WithoutId(records: seq<WallRecord>, id: int): seq<WallRecord> {
    if records == [] then []
    else (if records[0].id == id then [] else [records[0]]) + WithoutId(records[1..], id)
  }

  /** Whether some record has the given id. */
  predicate HasRecord(records: seq<WallRecord>, id: int) {
    exists k :: 0 <= k < |records| && records[k].id == id
  }

  /** Removing by id keeps exactly the records of other ids. */
  lemma {:induction false} WithoutIdMembers(records: seq<WallRecord>, id: int, r: WallRecord)
    ensures r in WithoutId(records, id) <==> r in records && r.id != id
  {
    if records != [] {
      WithoutIdMembers(records[1..], id, r);
      assert records == [records[0]] + records[1..];
    }
  }

  /** Record ids increase along the table. */
  predicate IdsIncrease(records: seq<WallRecord>) {
    forall i, j :: 0 <= i < j < |records| ==> records[i].id < records[j].id
  }

  lemma {:induction false} WithoutIdOrdered(records: seq<WallRecord>, id: int)
    requires IdsIncrease(records)
    ensures IdsIncrease(WithoutId(records, id))
  {
    if records != [] {
      var rest := records[1..];
      WithoutIdOrdered(rest, id);
      var tail := WithoutId(rest, id);
      forall k | 0 <= k < |tail| ensures records[0].id < tail[k].id {
        WithoutIdMembers(rest, id, tail[k]);
        var m :| 0 <= m < |rest| && rest[m] == tail[k];
        assert rest[m] == records[m + 1];
      }
    }
  }

  /** Removing by id keeps the records table valid: ids still increase and still resolve. */
  lemma WithoutIdValid(records: seq<WallRecord>, idols: seq<Idol>, nextId: nat, id: int)
    requires RecordsValid(records, idols, nextId)
    ensures RecordsValid(WithoutId(records, id), idols, nextId)
  {
    WithoutIdOrdered(records, id);
    var r := WithoutId(records, id);
    forall k | 0 <= k < |r|
      ensures 1 <= r[k].id < nextId && HasIdol(idols, r[k].idolId, r[k].guildId)
    {
      WithoutIdMembers(records, id, r[k]);
      var m :| 0 <= m < |records| && records[m] == r[k];
    }
  }

  lemma {:induction false} WithoutIdSame(records: seq<WallRecord>, id: int)
    requires !HasRecord(records, id)
    ensures WithoutId(records, id) == records
  {
    if records != [] {
      WithoutIdSame(records[1..], id);
    }
  }

  /** A new idol with the next id and a key not yet taken keeps the idols table valid. */
  lemma IdolsValidAppend(idols: seq<Idol>, nextId: nat, idol: Idol)
    requires IdolsValid(idols, nextId) && idol.id == nextId && nextId >= 1
    requires forall k :: 0 <= k < |idols| ==> !IsIdol(idols[k], idol.nickname, idol.guildId)
    ensures IdolsValid(idols + [idol], nextId + 1)
  {
  }

  /** Adding idols keeps every record resolved. */
  lemma RecordsValidGrow(records: seq<WallRecord>, idols: seq<Idol>, more: seq<Idol>, nextId: nat)
    requires RecordsValid(records, idols, nextId) && idols <= more
    ensures RecordsValid(records, more, nextId)
  {
    forall i | 0 <= i < |records| ensures HasIdol(more, records[i].idolId, records[i].guildId) {
      var j :| 0 <= j < |idols| && idols[j].id == records[i].idolId && idols[j].guildId == records[i].guildId;
      assert more[j] == idols[j];
    }
  }

  /** A new record with the next id, for an idol of its guild, keeps the records table valid. */
  lemma RecordsValidAppend(records: seq<WallRecord>, idols: seq<Idol>, nextId: nat, r: WallRecord)
    requires RecordsValid(records, idols, nextId) && r.id == nextId && nextId >= 1
    requires HasIdol(idols, r.idolId, r.guildId)
    ensures RecordsValid(records + [r], idols, nextId + 1)
  {
    var more := records + [r];
    forall i | 0 <= i < |more| ensures HasIdol(idols, more[i].idolId, more[i].guildId) {
      if i < |records| {
        assert more[i] == records[i];
      }
    }
  }

  // ---------------------------------------------------------------------------
  // The tables as one value, and what adding records does to them
  // ---------------------------------------------------------------------------

  /** Both tables with their auto-increment counters. */
  datatype Tables = Tables(idols: seq<Idol>, records: seq<WallRecord>, nextIdolId: nat, nextRecordId: nat)

  /**
   * One record added for the idol `name` of `guild`, as `送偶像上墙` and each line of
   * `批量添加` do it: the first idol found is reused, or else a recording idol is
   * created with the next idol id; the record takes the next record id.
   */
  function AddStep(t: Tables, name: string, description: string, time: Option<int>, guild: string, version: string): Tables {
    match FindIdol(t.idols, name, guild)
    case Some(k) =>
      Tables(t.idols, t.records + [WallRecord(t.nextRecordId, t.idols[k].id, description, time, guild, version)],
             t.nextIdolId, t.nextRecordId + 1)
    case None =>
      Tables(t.idols + [Idol(t.nextIdolId, name, guild, true)],
             t.records + [WallRecord(t.nextRecordId, t.nextIdolId, description, time, guild, version)],
             t.nextIdolId + 1, t.nextRecordId + 1)
  }

  /** The batch import of the parsed lines, one step each, in order, with no time. */
  function ImportSeq(t: Tables, parsed: seq<ImportLine>, guild: string): Tables {
    if parsed == [] then t
    else
      var p := parsed[|parsed| - 1];
      AddStep(ImportSeq(t, parsed[..|parsed| - 1], guild), p.name, p.description, None, guild, p.version)
  }

  /**
   * One step keeps every row, appends exactly one record, with the next record id, and
   * appends at most one idol, advancing the idol counter with it.
   */
  lemma AddStepFacts(t: Tables, name: string, description: string, time: Option<int>, guild: string, version: string)
    ensures var r := AddStep(t, name, description, time, guild, version);
      t.idols <= r.idols && |r.idols| <= |t.idols| + 1 &&
      r.nextIdolId == t.nextIdolId + (|r.idols| - |t.idols|) &&
      |r.records| == |t.records| + 1 && r.records[..|t.records|] == t.records &&
      r.records[|t.records|].id == t.nextRecordId && r.nextRecordId == t.nextRecordId + 1
  {
    var r := AddStep(t, name, description, time, guild, version);
    assert r.records[..|t.records|] == t.records;
  }

  /**
   * The import keeps every row, appends one record per line with consecutive ids from
   * the record counter, and advances the idol counter once per idol it creates.
   */
  lemma {:induction false} ImportSeqRecords(t: Tables, parsed: seq<ImportLine>, guild: string)
    ensures var r := ImportSeq(t, parsed, guild);
      t.idols <= r.idols && t.records <= r.records && |r.records| == |t.records| + |parsed| &&
      r.nextRecordId == t.nextRecordId + |parsed| &&
      r.nextIdolId == t.nextIdolId + (|r.idols| - |t.idols|) &&
      forall k :: |t.records| <= k < |r.records| ==> r.records[k].id == t.nextRecordId + (k - |t.records|)
  {
    if parsed != [] {
      var n := |parsed| - 1;
      ImportSeqRecords(t, parsed[..n], guild);
      var mid := ImportSeq(t, parsed[..n], guild);
      var p := parsed[n];
      AddStepFacts(mid, p.name, p.description, None, guild, p.version);
      var r := ImportSeq(t, parsed, guild);
      assert r == AddStep(mid, p.name, p.description, None, guild, p.version);
      forall k | |t.records| <= k < |mid.records| ensures r.records[k] == mid.records[k] {
        assert r.records[..|mid.records|][k] == r.records[k];
      }
      assert t.records <= r.records by {
        assert r.records[..|t.records|] == mid.records[..|t.records|];
      }
    }
  }

  /** Importing one more line is one more step. */
  lemma ImportSeqStep(t: Tables, lines: seq<string>, i: nat, guild: string)
    requires i < |lines|
    ensures var p := ParseLine(lines[i]);
      ImportSeq(t, ParseLines(lines[..i + 1]), guild) ==
      AddStep(ImportSeq(t, ParseLines(lines[..i]), guild), p.name, p.description, None, guild, p.version)
  {
    ParseLinesStep(lines, i);
    var done := ParseLines(lines[..i]);
    assert (done + [ParseLine(lines[i])])[..|done|] == done;
  }

  /** An idol the import created: recording, of the guild, with this id, for a line's name that had no idol before. */
  predicate CreatedFor(idol: Idol, id: nat, t: Tables, parsed: seq<ImportLine>, guild: string) {
    idol == Idol(id, idol.nickname, guild, true) && FindIdol(t.idols, idol.nickname, guild).None? &&
    exists k :: 0 <= k < |parsed| && parsed[k].name == idol.nickname
  }

  /** The idols the import appends are exactly created ones, with consecutive ids from the idol counter. */
  lemma {:induction false} ImportSeqIdols(t: Tables, parsed: seq<ImportLine>, guild: string)
    ensures var r := ImportSeq(t, parsed, guild);
      t.idols <= r.idols &&
      forall j :: |t.idols| <= j < |r.idols| ==> CreatedFor(r.idols[j], t.nextIdolId + (j - |t.idols|), t, parsed, guild)
  {
    if parsed != [] {
      var n := |parsed| - 1;
      ImportSeqIdols(t, parsed[..n], guild);
      ImportSeqRecords(t, parsed[..n], guild);
      var mid := ImportSeq(t, parsed[..n], guild);
      var r := ImportSeq(t, parsed, guild);
      var p := parsed[n];
      assert r == AddStep(mid, p.name, p.description, None, guild, p.version);
      forall j | |t.idols| <= j < |mid.idols|
        ensures CreatedFor(r.idols[j], t.nextIdolId + (j - |t.idols|), t, parsed, guild)
      {
        assert r.idols[j] == mid.idols[j];
        var k :| 0 <= k < n && parsed[..n][k].name == mid.idols[j].nickname;
        assert parsed[k].name == r.idols[j].nickname;
      }
      if FindIdol(mid.idols, p.name, guild).None? {
        assert r.idols == mid.idols + [Idol(mid.nextIdolId, p.name, guild, true)];
        FindIdolPrefix(t.idols, mid.idols, p.name, guild);
        assert CreatedFor(r.idols[|mid.idols|], t.nextIdolId + (|mid.idols| - |t.idols|), t, parsed, guild);
      }
    }
  }

  /** A name with no idol in the tables had none in an earlier prefix of them. */
  lemma FindIdolPrefix(before: seq<Idol>, after: seq<Idol>, nickname: string, guild: string)
    requires before <= after && FindIdol(after, nickname, guild).None?
    ensures FindIdol(before, nickname, guild).None?
  {
    forall k | 0 <= k < |before| ensures !IsIdol(before[k], nickname, guild) {
      assert before[k] == after[k];
    }
  }

  // ---------------------------------------------------------------------------
  // The store
  // ---------------------------------------------------------------------------

  /** The idols and records tables, with their auto-increment counters. */
  class WallStore {
    var idols: seq<Idol>
    var records: seq<WallRecord>
    var nextIdolId: nat
    var nextRecordId: nat

    ghost predicate Valid()
      reads this
    {
      IdolsValid(idols, nextIdolId) && RecordsValid(records, idols, nextRecordId)
    }

    /** The store's state as a value. */
    function Snapshot(): Tables
      reads this
    {
      Tables(idols, records, nextIdolId, nextRecordId)
    }

    /** Empty tables; auto-increment ids start at 1. */
    constructor ()
      ensures Valid() && Snapshot() == Tables([], [], 1, 1)
    {
      idols, records := [], [];
      nextIdolId, nextRecordId := 1, 1;
    }

    /**
     * The idol of this nickname in this guild: the first one found, or else a new one,
     * recording, with the next id.
     */
    method LookupOrCreateIdol(nickname: string, guild: string) returns (idol: Idol)
      requires Valid()
      modifies this
      ensures Valid()
      ensures records == old(records) && nextRecordId == old(nextRecordId)
      ensures match FindIdol(old(idols), nickname, guild)
        case Some(k) => idol == old(idols)[k] && idols == old(idols) && nextIdolId == old(nextIdolId)
        case None => idol == Idol(old(nextIdolId), nickname, guild, true) &&
                     idols == old(idols) + [idol] && nextIdolId == old(nextIdolId) + 1
      ensures idol in idols && IsIdol(idol, nickname, guild)
    {
      var found := FindIdol(idols, nickname, guild);
      if found.Some? {
        idol := idols[found.value];
      } else {
        idol := Idol(nextIdolId, nickname, guild, true);
        IdolsValidAppend(idols, nextIdolId, idol);
        RecordsValidGrow(records, idols, idols + [idol], nextRecordId);
        idols := idols + [idol];
        nextIdolId := nextIdolId + 1;
      }
    }

    /** Appends one record with the next id. */
    method AppendRecord(idol: Idol, description: string, time: Option<int>, guild: string, version: string)
      returns (record: WallRecord)
      requires Valid() && idol in idols && idol.guildId == guild
      modifies this
      ensures Valid()
      ensures idols == old(idols) && nextIdolId == old(nextIdolId) && nextRecordId == old(nextRecordId) + 1
      ensures record == WallRecord(old(nextRecordId), idol.id, description, time, guild, version)
      ensures records == old(records) + [record]
    {
      record := WallRecord(nextRecordId, idol.id, description, time, guild, version);
      assert HasIdol(idols, record.idolId, record.guildId);
      RecordsValidAppend(records, idols, nextRecordId, record);
      records := records + [record];
      nextRecordId := nextRecordId + 1;
    }

    /**
     * `送偶像上墙 <user> <message>`: finds or creates the idol in the caller's guild and
     * appends exactly one record for it, stamped with the session time and the
     * configured version.
     */
    method AddToWall(user: string, message: string, sessionGuild: Option<string>, timestamp: int, configVersion: string)
      returns (idol: Idol)
      requires Valid()
      modifies this
      ensures Valid()
      ensures var guild := GuildOf(sessionGuild);
        IsIdol(idol, user, guild) && idol in idols &&
        (FindIdol(old(idols), user, guild).Some? ==> idols == old(idols)) &&
        (FindIdol(old(idols), user, guild).None? ==> idols == old(idols) + [idol] && idol.isRecording) &&
        records == old(records) + [WallRecord(old(nextRecordId), idol.id, message, Some(timestamp), guild, configVersion)]
      ensures Snapshot() == AddStep(old(Snapshot()), user, message, Some(timestamp), GuildOf(sessionGuild), configVersion)
    {
      var guild := GuildOf(sessionGuild);
      idol := LookupOrCreateIdol(user, guild);
      var _ := AppendRecord(idol, message, Some(timestamp), guild, configVersion);
    }

    /**
     * `批量添加`: with no text (or an empty one) nothing happens; otherwise each line,
     * taken in order, adds one record for the idol it names in the caller's guild, with
     * no time, reusing or creating the idol as `AddToWall` does.
     */
    method BatchImport(text: Option<string>, sessionGuild: Option<string>) returns (ok: bool)
      requires Valid()
      modifies this
      ensures Valid()
      ensures ok == (text.Some? && text.value != "")
      ensures !ok ==> Snapshot() == old(Snapshot())
      ensures ok ==> Snapshot() == ImportSeq(old(Snapshot()), ParseLines(ImportLines(text.value)), GuildOf(sessionGuild))
      ensures ok ==> old(idols) <= idols && |old(records)| <= |records| && records[..|old(records)|] == old(records) &&
                     ImportedAll(records[|old(records)|..], ParseLines(ImportLines(text.value)), GuildOf(sessionGuild), idols)
    {
      ok := text.Some? && text.value != "";
      if !ok {
        return;
      }
      var lines := ImportLines(text.value);
      ImportAll(lines, GuildOf(sessionGuild));
    }

    /** The lines of the batch import, in order. */
    method ImportAll(lines: seq<string>, guild: string)
      requires Valid()
      modifies this
      ensures Valid()
      ensures old(idols) <= idols && |old(records)| <= |records| && records[..|old(records)|] == old(records)
      ensures ImportedAll(records[|old(records)|..], ParseLines(lines), guild, idols)
      ensures Snapshot() == ImportSeq(old(Snapshot()), ParseLines(lines), guild)
    {
      ghost var before, start := records, Snapshot();
      for i := 0 to |lines|
        invariant Valid()
        invariant Snapshot() == ImportSeq(start, ParseLines(lines[..i]), guild)
        invariant old(idols) <= idols
        invariant |before| <= |records| && records[..|before|] == before
        invariant ImportedAll(records[|before|..], ParseLines(lines[..i]), guild, idols)
      {
        ghost var idolsBefore, recordsBefore := idols, records;
        var record := ImportOne(lines[i], guild);
        ImportedAllGrows(recordsBefore[|before|..], ParseLines(lines[..i]), guild, idolsBefore, idols);
        AppendSlices(recordsBefore, record, |before|);
        ImportedAllStep(recordsBefore[|before|..], record, ParseLines(lines[..i]), ParseLine(lines[i]), guild, idols);
        ParseLinesStep(lines, i);
        ImportSeqStep(start, lines, i, guild);
      }
      assert lines[..|lines|] == lines;
    }

    /** One line of the batch import: its idol found or created, and one record with no time appended. */
    method ImportOne(line: string, guild: string) returns (record: WallRecord)
      requires Valid()
      modifies this
      ensures Valid()
      ensures old(idols) <= idols && records == old(records) + [record]
      ensures ImportedAs(record, ParseLine(line), guild, idols)
      ensures var p := ParseLine(line); Snapshot() == AddStep(old(Snapshot()), p.name, p.description, None, guild, p.version)
    {
      var words := ParseLine(line);
      var idol := LookupOrCreateIdol(words.name, guild);
      record := AppendRecord(idol, words.description, None, guild, words.version);
      var j :| 0 <= j < |idols| && idols[j] == idol;
      assert idols[j].id == record.idolId && IsIdol(idols[j], words.name, guild);
    }

    /**
     * `删除南墙记录 -i <id>`: without an id (or with id 0, which is falsy) nothing is
     * removed; otherwise the records of that id are removed, and the outcome says
     * whether any matched.
     */
    method Delete(id: Option<int>) returns (outcome: DeleteOutcome)
      requires Valid()
      modifies this
      ensures Valid()
      ensures idols == old(idols) && nextIdolId == old(nextIdolId) && nextRecordId == old(nextRecordId)
      ensures id.None? || id.value == 0 ==> outcome == MissingId && records == old(records)
      ensures id.Some? && id.value != 0 ==>
        records == WithoutId(old(records), id.value) &&
        (outcome == NotFound <==> !HasRecord(old(records), id.value)) && outcome != MissingId
    {
      if id.None? || id.value == 0 {
        return MissingId;
      }
      var matched := HasRecord(records, id.value);
      WithoutIdValid(records, idols, nextRecordId, id.value);
      records := WithoutId(records, id.value);
      outcome := if matched then Deleted else NotFound;
    }

    /** `南墙记录 [version] [-n name] [-d]`: the reply text. */
    function ListRecords(version: Option<string>, name: Option<string>, showIds: bool,
                         sessionGuild: Option<string>, configVersion: string): string
      reads this
    {
      RecordsReply(SelectListings(Joined(idols, records), GuildOf(sessionGuild),
                                  ResolveVersion(version, configVersion), name), showIds)
    }

    /**
     * `南墙统计` without the drawing. `result` is what the grouped query returns: the
     * grouped count of the caller's guild's joined rows, in the engine's order (the
     * query asks for descending count; ties come in no specified order). The command
     * throws (None) exactly when the guild has a record whose version names a property
     * every object inherits. Otherwise there is one top-4-plus-Others dataset per
     * version of the result, exactly the versions the guild has records of, and each
     * dataset's values sum to that version's number of records in the guild.
     */
    method Statistics(sessionGuild: Option<string>, result: seq<Bucketing.Group>) returns (datasets: Option<seq<Bucketing.Dataset>>)
      requires Valid()
      requires multiset(result) == multiset(Bucketing.GroupCounts(StatRows(Joined(idols, records), GuildOf(sessionGuild))))
      ensures datasets.None? <==>
        exists v :: v in Bucketing.InheritedNames && GuildVersionCount(records, GuildOf(sessionGuild), v) > 0
      ensures datasets.Some? ==> var versions := Bucketing.VersionsOf(result);
        |datasets.value| == |versions| &&
        (forall v :: v in versions <==> GuildVersionCount(records, GuildOf(sessionGuild), v) > 0) &&
        forall k :: 0 <= k < |datasets.value| ==>
          datasets.value[k] == Bucketing.DatasetOf(versions[k], Bucketing.BucketOf(result, versions[k])) &&
          |datasets.value[k].labels| == |datasets.value[k].data| <= Bucketing.Kept + 1 &&
          Bucketing.Sum(datasets.value[k].data) == GuildVersionCount(records, GuildOf(sessionGuild), versions[k])
    {
      var guild := GuildOf(sessionGuild);
      ghost var rows := StatRows(Joined(idols, records), guild);
      datasets := Bucketing.BuildDatasets(result);
      ghost var versions := Bucketing.VersionsOf(result);
      forall v ensures v in versions <==> GuildVersionCount(records, guild, v) > 0 {
        Bucketing.ResultBuckets(rows, result, v);
        StatRowsCountRecords(idols, records, guild, v);
      }
      Bucketing.HitsPrototypeVersions(result);
      if datasets.Some? {
        forall k | 0 <= k < |datasets.value|
          ensures |datasets.value[k].labels| == |datasets.value[k].data| <= Bucketing.Kept + 1 &&
                  Bucketing.Sum(datasets.value[k].data) == GuildVersionCount(records, guild, versions[k])
        {
          Bucketing.ResultBuckets(rows, result, versions[k]);
          Bucketing.BucketPositive(result, versions[k]);
          Bucketing.DatasetConservesTotal(versions[k], Bucketing.BucketOf(result, versions[k]));
          StatRowsCountRecords(idols, records, guild, versions[k]);
        }
      }
    }

    /**
     * What the rebuild message hook does, without matching the message text: drops
     * both tables and runs the startup again. The reply is sent only when that
     * startup returns.
     */
    method Rebuild(registry: Model.Registry) returns (reply: Option<string>, startup: Model.Startup)
      requires Valid()
      modifies this, registry
      ensures Valid() && idols == [] && records == [] && nextIdolId == 1 && nextRecordId == 1
      ensures registry.metaRows == old(registry.metaRows)
      ensures registry.tables == Model.AfterApply(old(registry.tables), old(registry.metaRows))
      ensures startup == Model.StartupOf(old(registry.metaRows))
      ensures reply == (if startup.NeverReturns? then None else Some(RebuildReply))
    {
      idols, records := [], [];
      nextIdolId, nextRecordId := 1, 1;
      startup := registry.Apply();
      reply := if startup.NeverReturns? then None else Some(RebuildReply);
    }
  }
}
