/** The indexed columns of a stored vault header. */
module VaultIndex {
  import opened Prelude
  import opened Buffer
  import opened CompositeEtag
  import opened Tables
  import opened Accounts
  import opened Invariants
  import opened Machine
  import Ssnv

  /** What is accepted, and what is stored for it: exactly the encodings of version 2
      headers, with their key, and with algorithm 1 in place of 0. */
  lemma AcceptedHeaders(db: Db, user: Uuid, h: Ssnv.Header)
    requires Ssnv.Printable(h)
    ensures PutVault(db, user, Ssnv.Print(h)).1.Ok? <==> h.identity.Some?
    ensures h.identity.Some? ==>
              var i := h.identity.value;
              PutVault(db, user, Ssnv.Print(h)).0.vaults
                == db.vaults[user :=
                  VaultRow(Ssnv.Print(h), i.publicKey, if i.algorithmId == 0 then 1 else i.algorithmId)]
  {
    hide Ssnv.Parse, Ssnv.Print, Ssnv.Printable;
    Ssnv.Canonical(Ssnv.Print(h), h);
    EmptyNotParsed();
  }

  /** Nothing but such an encoding is accepted. */
  lemma OnlyEncodingsAccepted(db: Db, user: Uuid, header: Bytes)
    requires PutVault(db, user, header).1.Ok?
    ensures Ssnv.Parse(header).Parsed?
    ensures var h := Ssnv.Parse(header).value;
            Ssnv.Printable(h) && header == Ssnv.Print(h) && h.identity.Some?
  {
    hide Ssnv.Parse, Ssnv.Print, Ssnv.Printable;
    Ssnv.Canonical(header, Ssnv.Parse(header).value);
  }

  lemma EmptyNotParsed()
    ensures Ssnv.Parse([]) == ParseError
  {
  }

  /** In every reachable state the stored header parses again, as version 2, to the
      stored key and the stored algorithm. */
  lemma StoredHeaderReparses(sha: Bytes -> Digest, rs: seq<Request>, user: Uuid)
    requires user in Run(sha, EMPTY_DB, rs).vaults
    ensures var row := Run(sha, EMPTY_DB, rs).vaults[user];
            && Ssnv.Parse(row.header).Parsed?
            && var h := Ssnv.Parse(row.header).value;
            && row.header != [] && h.identity.Some?
            && h.identity.value.publicKey == row.publicKey && |row.publicKey| == Ssnv.IDENTITY_PUBLIC_KEY_LENGTH
            && row.algorithmId == (if h.identity.value.algorithmId == 0 then 1 else h.identity.value.algorithmId)
            && 1 <= row.algorithmId <= 255
  {
    hide Run, Ssnv.Parse, ChunksOk, SyncOk, ContentOnlyUnderActive, StampsFit, SessionsOk, SessionsExact, UsersOk,
      SharesOk, KeysOk;
    Reachable(sha, rs);
    EmptyNotParsed();
    assert VaultOk(Run(sha, EMPTY_DB, rs).vaults[user]);
  }
}
