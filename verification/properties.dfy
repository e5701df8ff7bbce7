/**
 * What the whole translation guarantees: when it fails and with which error,
 * and how the generated file is laid out when it succeeds.
 */
module Properties {
  import opened Wrappers
  import opened ConfigModel
  import opened Users
  import opened Text
  import opened Caddyfile

  /** What a `[[share]]` table must contain: a non-empty name and an absolute path. */
  predicate AcceptableShare(share: ShareEntry) {
    share.name.Some? && share.name.value != "" && share.path.Some? && IsAbs(share.path.value)
  }

  /** The share checks accept exactly the acceptable tables and keep their fields. */
  lemma ValidateShareAccepts(share: ShareEntry)
    ensures ValidateShare(share).Ok? <==> AcceptableShare(share)
    ensures ValidateShare(share).Ok? ==>
      ValidateShare(share).value == ValidShare(share.name.value, share.path.value, share.access)
  {
  }

  /** The share checks pass exactly when every share table is acceptable. */
  lemma {:induction false} ValidateSharesSucceeds(shares: seq<ShareEntry>)
    ensures ValidateShares(shares).Ok? <==> forall i :: 0 <= i < |shares| ==> AcceptableShare(shares[i])
  {
    if shares != [] {
      var init := shares[..|shares| - 1];
      ValidateSharesSucceeds(init);
      assert forall i :: 0 <= i < |init| ==> init[i] == shares[i];
      ValidateShareAccepts(shares[|shares| - 1]);
    }
  }

  /** When the checks pass, there is one checked share per table, in file order. */
  lemma {:induction false} ValidateSharesValues(shares: seq<ShareEntry>)
    requires ValidateShares(shares).Ok?
    ensures var valid := ValidateShares(shares).value;
      |valid| == |shares| &&
      forall i :: 0 <= i < |shares| ==> ValidateShare(shares[i]) == Ok(valid[i])
  {
    if shares != [] {
      var init := shares[..|shares| - 1];
      ValidateSharesValues(init);
      assert forall i :: 0 <= i < |init| ==> init[i] == shares[i];
    }
  }

  /** When the checks fail, they fail with the error of the first share table that is not acceptable. */
  lemma ValidateSharesFailure(shares: seq<ShareEntry>, k: nat)
    requires k < |shares| && !AcceptableShare(shares[k])
    requires forall j :: 0 <= j < k ==> AcceptableShare(shares[j])
    ensures ValidateShares(shares) == Err(ValidateShare(shares[k]).error)
  {
    ValidateShareAccepts(shares[k]);
    var prefix := shares[..k];
    assert forall j :: 0 <= j < |prefix| ==> prefix[j] == shares[j];
    ValidateSharesSucceeds(prefix);
    ValidateSharesStep(shares, k);
    SharesErrorPersists(shares, k + 1);
  }

  /** The blocks of two runs of shares are the blocks of the first followed by those of the second. */
  lemma {:induction false} BlocksAppend(a: seq<ValidShare>, b: seq<ValidShare>, users: seq<User>, enableWeb: bool)
    ensures Blocks(a + b, users, enableWeb) == Blocks(a, users, enableWeb) + Blocks(b, users, enableWeb)
    decreases |b|
  {
    if b == [] {
      assert a + b == a;
    } else {
      var init, last := b[..|b| - 1], b[|b| - 1];
      assert (a + b)[..|a + b| - 1] == a + init;
      assert (a + b)[|a + b| - 1] == last;
      BlocksAppend(a, init, users, enableWeb);
      Assoc(Blocks(a, users, enableWeb), Blocks(init, users, enableWeb), ShareBlock(last, users, enableWeb));
    }
  }

  /** Generation succeeds exactly when every user table and every share table is acceptable. */
  lemma GenerateSucceeds(cfg: Config, hash: string -> string)
    ensures Generate(cfg, hash).Ok? <==>
      (forall i :: 0 <= i < |UserEntries(cfg)| ==> ValidUser(UserEntries(cfg)[i])) &&
      (forall i :: 0 <= i < |ShareEntries(cfg)| ==> AcceptableShare(ShareEntries(cfg)[i]))
  {
    ResolveUsersSucceeds(UserEntries(cfg), hash);
    ValidateSharesSucceeds(ShareEntries(cfg));
  }

  /**
   * A user table without a username, or without any password, stops generation
   * before any share is looked at; the first bad table decides the error.
   */
  lemma GenerateUserFailure(cfg: Config, hash: string -> string, k: nat)
    requires k < |UserEntries(cfg)| && !ValidUser(UserEntries(cfg)[k])
    requires forall j :: 0 <= j < k ==> ValidUser(UserEntries(cfg)[j])
    ensures Generate(cfg, hash) == Err(UserError(UserEntries(cfg)[k]))
  {
    var entries := UserEntries(cfg);
    ResolveUsersSucceeds(entries, hash);
    ResolveUsersFailure(entries, hash);
    var i :|
      && 0 <= i < |entries|
      && !ValidUser(entries[i])
      && (forall j :: 0 <= j < i ==> ValidUser(entries[j]))
      && ResolveUsers(entries, hash).error == UserError(entries[i]);
    assert i == k;
  }

  /**
   * With every user valid, a share whose name is missing or empty, or whose path
   * is missing, empty or relative, stops generation; the first bad share decides the error.
   */
  lemma GenerateShareFailure(cfg: Config, hash: string -> string, k: nat)
    requires forall i :: 0 <= i < |UserEntries(cfg)| ==> ValidUser(UserEntries(cfg)[i])
    requires k < |ShareEntries(cfg)| && !AcceptableShare(ShareEntries(cfg)[k])
    requires forall j :: 0 <= j < k ==> AcceptableShare(ShareEntries(cfg)[j])
    ensures Generate(cfg, hash) == Err(ValidateShare(ShareEntries(cfg)[k]).error)
  {
    ResolveUsersSucceeds(UserEntries(cfg), hash);
    ValidateSharesFailure(ShareEntries(cfg), k);
  }

  /** The error a share table that is not acceptable causes, as the checks run in order. */
  lemma ShareErrors(share: ShareEntry)
    ensures share.name.None? ==> ValidateShare(share) == Err(ShareNameMissing)
    ensures share.name == Some("") ==> ValidateShare(share) == Err(ShareNameRequired)
    ensures share.name.Some? && share.name.value != "" && (share.path.None? || share.path == Some(""))
      ==> ValidateShare(share) == Err(SharePathRequired)
    ensures (share.name.Some? && share.name.value != "" && share.path.Some? && share.path.value != ""
             && share.path.value[0] != '/') ==> ValidateShare(share) == Err(SharePathNotAbsolute)
  {
  }

  /** Share `k`'s block sits between the blocks of the shares before it and those after it. */
  lemma BlocksSplit(valid: seq<ValidShare>, k: nat, users: seq<User>, enableWeb: bool)
    requires k < |valid|
    ensures Blocks(valid, users, enableWeb) ==
      Blocks(valid[..k], users, enableWeb) + ShareBlock(valid[k], users, enableWeb) + Blocks(valid[k + 1..], users, enableWeb)
  {
    assert valid == (valid[..k] + [valid[k]]) + valid[k + 1..];
    BlocksAppend(valid[..k] + [valid[k]], valid[k + 1..], users, enableWeb);
    BlocksStep(valid[..k], valid[k], users, enableWeb);
  }

  /**
   * A generated file is the header (comment lines and the site line), the
   * block of every share in file order, and the trailer; the block of share
   * `k` is rendered from that share's checked fields.
   */
  lemma GenerateLayout(cfg: Config, hash: string -> string)
    requires Generate(cfg, hash).Ok?
    ensures Users.ResolveUsers(UserEntries(cfg), hash).Ok? && ValidateShares(ShareEntries(cfg)).Ok?
    ensures var valid := ValidateShares(ShareEntries(cfg)).value;
      && |valid| == |ShareEntries(cfg)|
      && (forall k :: 0 <= k < |valid| ==> ValidateShare(ShareEntries(cfg)[k]) == Ok(valid[k]))
      && Generate(cfg, hash).value ==
           Header(UseHttps(cfg), Domain(cfg))
           + Blocks(valid, Users.ResolveUsers(UserEntries(cfg), hash).value, EnableWeb(cfg))
           + Trailer
  {
    ValidateSharesValues(ShareEntries(cfg));
  }

  /** The generated file starts with the header and its site line, and ends with the trailer. */
  lemma GenerateFraming(cfg: Config, hash: string -> string)
    requires Generate(cfg, hash).Ok?
    ensures Header(UseHttps(cfg), Domain(cfg)) <= Generate(cfg, hash).value
    ensures var text := Generate(cfg, hash).value;
      |text| >= |Trailer| && text[|text| - |Trailer|..] == Trailer
  {
    var text := Generate(cfg, hash).value;
    var header := Header(UseHttps(cfg), Domain(cfg));
    var body := Blocks(ValidateShares(ShareEntries(cfg)).value, Users.ResolveUsers(UserEntries(cfg), hash).value, EnableWeb(cfg));
    assert text == header + body + Trailer;
    assert text[..|header|] == header;
    assert text[|text| - |Trailer|..] == Trailer;
  }

  /**
   * The site line: the scheme is `https` exactly when HTTPS is on, and without
   * a configured domain the address is `localhost` with HTTPS and `*` without.
   */
  lemma SiteAddress(cfg: Config)
    ensures var line := SiteLine(UseHttps(cfg), Domain(cfg));
      && (UseHttps(cfg) <==> line[..8] == "https://")
      && (cfg.domain.None? && UseHttps(cfg) ==> line == "https://localhost {\n")
      && (cfg.domain.None? && !UseHttps(cfg) ==> line == "http://* {\n")
      && (cfg.domain.Some? ==> line[|line| - |cfg.domain.value| - 3..] == cfg.domain.value + " {\n")
  {
    var line := SiteLine(UseHttps(cfg), Domain(cfg));
    if !UseHttps(cfg) {
      assert line[4] == ':';
    }
  }

  /** A configuration with no users and no shares yields only the frame of an open site. */
  lemma EmptyConfig(hash: string -> string)
    ensures Generate(Config(None, None, None, None, None), hash) == Ok(Banner + "http://* {\n" + Trailer)
  {
    var cfg := Config(None, None, None, None, None);
    assert UserEntries(cfg) == [] && ShareEntries(cfg) == [];
    assert SiteLine(UseHttps(cfg), Domain(cfg)) == "http://* {\n";
    assert Users.ResolveUsers([], hash) == Ok([]);
    assert ValidateShares([]) == Ok([]);
    assert Blocks([], [], true) == "";
    assert Header(false, "*") + "" == Banner + "http://* {\n";
  }
}
