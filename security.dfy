/** The credential cache of packages/api/src/security.ts: one `DefaultAzureCredential`, built on
    the first request and shared by every later one. */
module Security {
  /** The identity the handlers authenticate with; its token logic is not part of this model. */
  class DefaultAzureCredential {
    constructor ()
    {
    }
  }

  /** The module-level `credentials` variable. */
  class CredentialCache {
    var credentials: DefaultAzureCredential?
    /** How many credentials have been built so far. */
    ghost var constructions: nat

    /** A credential is stored exactly when one has been built, and at most one ever is. */
    ghost predicate Valid()
      reads this
    {
      (credentials == null <==> constructions == 0) && constructions <= 1
    }

    /** The state when the module loads: nothing stored. */
    constructor ()
      ensures Valid() && credentials == null && constructions == 0
    {
      credentials := null;
      constructions := 0;
    }

    /** `getCredentials`: `credentials ||= new DefaultAzureCredential()`, then the stored one. */
    method GetCredentials() returns (c: DefaultAzureCredential)
      requires Valid()
      modifies this
      ensures Valid()
      ensures credentials == c
      ensures old(credentials) != null ==> c == old(credentials) && constructions == old(constructions)
      ensures old(credentials) == null ==> fresh(c) && constructions == 1
    {
      if credentials == null {
        credentials := new DefaultAzureCredential();
        constructions := constructions + 1;
      }
      c := credentials;
    }
  }
}
