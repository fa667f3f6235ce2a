/** Column defaults of the `User` table (models.py) and the badge-list text
    they produce, which `get_limits` in api.py parses back into integers. */
module Models {
  import opened Wrappers
  import opened Text

  /** The `defaultLimits` part of the configuration file; `None` is a key that is absent
      (`dict.get` then falls back to the literal default). */
  datatype Config = Config(
    pingSize: Option<int>,
    pingRate: Option<int>,
    equip: Option<int>,
    download: Option<int>,
    upload: Option<int>,
    maxAvatarSize: Option<int>,
    maxAvatars: Option<int>,
    specialBadges: Option<seq<int>>,
    prideBadges: Option<seq<int>>)

  const NoConfig := Config(None, None, None, None, None, None, None, None, None)

  /** The limit and badge columns a new `User` row receives. */
  datatype Limits = Limits(
    pingSize: int,
    pingRate: int,
    equip: int,
    download: int,
    upload: int,
    maxAvatarSize: int,
    maxAvatars: int,
    specialBadges: string,
    prideBadges: string)

  /** `",".join(str(x) for x in xs)` */
  function BadgeCsv(xs: seq<int>): (r: string)
    ensures r == "" <==> xs == []
  {
    Join(seq(|xs|, i requires 0 <= i < |xs| => IntToString(xs[i])), ',')
  }

  /** `[int(x) for x in pieces]`: `None` when any piece is not an integer. */
  function ParseAll(pieces: seq<string>): (r: Option<seq<int>>)
    ensures r.Some? ==> |r.value| == |pieces|
    ensures r.Some? ==> forall i :: 0 <= i < |pieces| ==> ParseInt(pieces[i]) == Some(r.value[i])
    ensures r.None? ==> exists i :: 0 <= i < |pieces| && ParseInt(pieces[i]).None?
  {
    if pieces == [] then Some([])
    else
      match ParseInt(pieces[0])
      case None => None
      case Some(x) =>
        match ParseAll(pieces[1..])
        case None => None
        case Some(xs) => Some([x] + xs)
  }

  /** `[int(x) for x in s.split(",")]` in `get_limits`. */
  function ParseBadges(s: string): (r: Option<seq<int>>)
    ensures s == "" ==> r.None?
    ensures r.Some? ==> r.value != [] && |r.value| == |Split(s, ',')|
  {
    ParseAll(Split(s, ','))
  }

  /** Any non-empty badge list survives the round trip through its column text. */
  lemma BadgeRoundTrip(xs: seq<int>)
    requires |xs| >= 1
    ensures ParseBadges(BadgeCsv(xs)) == Some(xs)
  {
    var pieces := seq(|xs|, i requires 0 <= i < |xs| => IntToString(xs[i]));
    SplitJoin(pieces, ',');
    forall i | 0 <= i < |pieces| ensures ParseInt(pieces[i]) == Some(xs[i]) {
      IntToStringParses(xs[i]);
    }
    assert ParseAll(pieces).value == xs;
  }

  /** The empty list is written as "", which the parser rejects (`int("")` raises). */
  lemma EmptyBadgesRejected()
    ensures BadgeCsv([]) == "" && ParseBadges(BadgeCsv([])).None?
  {
    assert Split("", ',') == [""];
  }

  /** A badge list reads back from its column text as itself, unless it is empty,
      which reads back as a failure. */
  lemma BadgeReadBack(xs: seq<int>)
    ensures ParseBadges(BadgeCsv(xs)) == if xs == [] then None else Some(xs)
  {
    if xs == [] {
      EmptyBadgesRejected();
    } else {
      BadgeRoundTrip(xs);
    }
  }

  function Zeros(n: nat): (r: seq<int>)
    ensures |r| == n && forall i :: 0 <= i < n ==> r[i] == 0
  {
    seq(n, _ => 0)
  }

  /** The column defaults of `User`: each configured value, or else the literal fallback. */
  function DefaultsOf(cfg: Config): (r: Limits)
    ensures var special := cfg.specialBadges.GetOr(Zeros(6));
      ParseBadges(r.specialBadges) == if special == [] then None else Some(special)
    ensures var pride := cfg.prideBadges.GetOr(Zeros(25));
      ParseBadges(r.prideBadges) == if pride == [] then None else Some(pride)
  {
    BadgeReadBack(cfg.specialBadges.GetOr(Zeros(6)));
    BadgeReadBack(cfg.prideBadges.GetOr(Zeros(25)));
    Limits(
      cfg.pingSize.GetOr(1024),
      cfg.pingRate.GetOr(32),
      cfg.equip.GetOr(1),
      cfg.download.GetOr(50),
      cfg.upload.GetOr(1),
      cfg.maxAvatarSize.GetOr(100000),
      cfg.maxAvatars.GetOr(10),
      BadgeCsv(cfg.specialBadges.GetOr(Zeros(6))),
      BadgeCsv(cfg.prideBadges.GetOr(Zeros(25))))
  }

  /** With nothing configured: 1024 bytes and 32 pings per second, 100000-byte avatars,
      six special and twenty-five pride badges, all zero. */
  lemma DefaultsWithoutConfig()
    ensures var d := DefaultsOf(NoConfig);
      && d.pingSize == 1024 && d.pingRate == 32 && d.maxAvatarSize == 100000
      && d.equip == 1 && d.download == 50 && d.upload == 1 && d.maxAvatars == 10
      && d.specialBadges == "0,0,0,0,0,0"
      && ParseBadges(d.specialBadges) == Some(Zeros(6))
      && ParseBadges(d.prideBadges) == Some(Zeros(25))
  {
    var z := seq(6, i requires 0 <= i < 6 => IntToString(Zeros(6)[i]));
    assert IntToString(0) == "0";
    assert z == ["0", "0", "0", "0", "0", "0"];
    assert Join(z[4..], ',') == "0,0";
    assert Join(z[2..], ',') == "0,0,0,0" by { assert z[2..][1..] == z[3..]; assert z[3..][1..] == z[4..]; }
    assert Join(z, ',') == "0,0,0,0,0,0" by { assert z[1..] == ["0", "0", "0", "0", "0"]; assert z[1..][1..] == z[2..]; }
  }
}
