/**
 Credentials of the River and Paradise BMCs: reading them from the vault with
 bounded retries (creds.go), and noticing that they have changed since conman was
 configured (monitor.go).
 */
module Credentials {
  import opened Wrappers
  import opened Listings
  import opened Nodes

  datatype Creds = Creds(username: string, password: string)

  /** BMC name -> credentials; what a vault query returns, and what was last configured. */
  type Passwords = map<Name, Creds>

  /** The vault's content at one moment. */
  type Vault = map<Name, Creds>

  const NO_CREDS := Creds("", "")

  function Lookup(passwords: Passwords, bmc: Name): Creds {
    if bmc in passwords then passwords[bmc] else NO_CREDS
  }

  /** A vault query for some BMCs: whatever is there for them, the missing ones skipped. */
  function GetPasswords(vault: Vault, bmcs: set<Name>): Passwords {
    map b | b in bmcs && b in vault :: vault[b]
  }

  predicate CoversAll(vault: Vault, bmcs: seq<Name>) {
    forall b :: b in bmcs ==> b in vault
  }

  /** The try that ends the retry loop: the first one finding every BMC, else the last allowed. */
  ghost predicate IsLastTry(vaults: seq<Vault>, bmcs: seq<Name>, last: nat) {
    && last < |vaults|
    && (forall i :: 0 <= i < last ==> !CoversAll(vaults[i], bmcs))
    && (CoversAll(vaults[last], bmcs) || last == |vaults| - 1)
  }

  /**
   Up to |vaults| queries, stopping as soon as one has an answer for every BMC.
   vaults[i] is the vault's content at try i.
   */
  method GetPasswordsWithRetries(bmcs: seq<Name>, vaults: seq<Vault>) returns (passwords: Passwords, last: nat)
    requires vaults != []
    ensures IsLastTry(vaults, bmcs, last)
    ensures passwords == GetPasswords(vaults[last], Elems(bmcs))
    ensures (forall b :: b in bmcs ==> b in passwords) <==> exists i :: 0 <= i < |vaults| && CoversAll(vaults[i], bmcs)
  {
    passwords := map[];
    last := 0;
    var numTries := 0;
    while numTries < |vaults|
      invariant 0 <= numTries <= |vaults|
      invariant forall i :: 0 <= i < numTries ==> !CoversAll(vaults[i], bmcs)
      invariant numTries > 0 ==> last == numTries - 1 && passwords == GetPasswords(vaults[last], Elems(bmcs))
    {
      last := numTries;
      passwords := GetPasswords(vaults[numTries], Elems(bmcs));
      var foundAll := true;
      for i := 0 to |bmcs|
        invariant foundAll <==> forall j :: 0 <= j < i ==> bmcs[j] in vaults[numTries]
      {
        if bmcs[i] !in passwords {
          foundAll := false;
        }
      }
      if foundAll {
        return;
      }
      numTries := numTries + 1;
    }
  }

  /** The BMCs conman logs in to with a password. */
  function BmcNames(h: Held): set<Name> {
    (set k | k in h.rvr :: h.rvr[k].bmcName) + (set k | k in h.pds :: h.pds[k].bmcName)
  }

  /**
   Some password-based BMC of a held node has credentials in the vault that differ
   from the recorded ones; a BMC without a record counts as having empty ones, and
   a BMC missing from the vault is passed over.
   */
  ghost predicate CredsChanged(h: Held, vault: Vault, previous: Option<Passwords>) {
    && previous.Some?
    && exists b :: b in BmcNames(h) && b in vault && vault[b] != Lookup(previous.value, b)
  }

  /** Does any of these BMCs have credentials now that differ from the recorded ones? */
  method AnyDiffers(bmcs: seq<Name>, vault: Vault, previous: Passwords) returns (changed: bool)
    ensures changed <==> exists b :: b in bmcs && b in vault && vault[b] != Lookup(previous, b)
  {
    var current := GetPasswords(vault, Elems(bmcs));
    for i := 0 to |bmcs|
      invariant forall j :: 0 <= j < i ==> bmcs[j] !in vault || vault[bmcs[j]] == Lookup(previous, bmcs[j])
    {
      if bmcs[i] in current {
        if current[bmcs[i]] != Lookup(previous, bmcs[i]) {
          return true;
        }
      }
    }
    return false;
  }

  lemma DifferenceIsChange(h: Held, vault: Vault, bmcs: seq<Name>, previous: Passwords)
    requires Elems(bmcs) == BmcNames(h)
    ensures CredsChanged(h, vault, Some(previous)) <==>
            exists b :: b in bmcs && b in vault && vault[b] != Lookup(previous, b)
  {
  }

  /**
   Right after recording, and for as long as the vault answers the same for the
   recorded BMCs and no other BMC has come in, no change is seen.
   */
  lemma NoChangeSinceRecorded(h: Held, vault: Vault, bmcs: set<Name>, recorded: Vault)
    requires BmcNames(h) <= bmcs
    requires forall b :: b in BmcNames(h) && b in vault ==> b in recorded && recorded[b] == vault[b]
    ensures !CredsChanged(h, vault, Some(GetPasswords(recorded, bmcs)))
  {
  }

  /** A BMC that got its first, non-empty credentials only after the recording is noticed. */
  lemma LateCredentialsAreNoticed(h: Held, vault: Vault, bmcs: set<Name>, recorded: Vault, bmc: Name)
    requires bmc in BmcNames(h) && bmc in vault && vault[bmc] != NO_CREDS
    requires bmc !in recorded || bmc !in bmcs
    ensures CredsChanged(h, vault, Some(GetPasswords(recorded, bmcs)))
  {
  }
}
