/** Sitecore item identifiers in their canonical text form, as `ID.ToString()` renders them. */
module Ids {

  predicate IsHexUpper(c: char)
  {
    '0' <= c <= '9' || 'A' <= c <= 'F'
  }

  predicate IsHex(c: char)
  {
    IsHexUpper(c) || 'a' <= c <= 'f'
  }

  /**
   * The text `ID.TryParse` accepts and `ID.ToString` produces: a braced, upper-case GUID
   * `{XXXXXXXX-XXXX-XXXX-XXXX-XXXXXXXXXXXX}`.
   */
  predicate IsId(s: string)
  {
    |s| == 38 && s[0] == '{' && s[37] == '}' && s[9] == '-' && s[14] == '-' && s[19] == '-' && s[24] == '-'
    && forall i | 0 <= i < |s| && i != 0 && i != 37 && i != 9 && i != 14 && i != 19 && i != 24 :: IsHexUpper(s[i])
  }

  /** A parsed `Sitecore.Data.ID`; its text is its `ToString()`. */
  type Id = s: string | IsId(s) witness "{00000000-0000-0000-0000-000000000000}"

  /** ID.Null. */
  const NullId: Id := "{00000000-0000-0000-0000-000000000000}"

  /** ItemIDs.RootID, the ID of /sitecore. */
  const RootId: Id := "{11111111-1111-1111-1111-111111111111}"

  /** ShortID.IsShortID: thirty-two hex digits with no braces or dashes. */
  predicate IsShortId(s: string)
  {
    |s| == 32 && forall i | 0 <= i < |s| :: IsHex(s[i])
  }

  /** No text is both an ID and a short ID, so a path can be read as at most one of the two. */
  lemma IdIsNotShortId(s: string)
    ensures !(IsId(s) && IsShortId(s))
  {
  }
}
