/**
 JSON texts as trees that remember their layout. Strings and member names are kept as
 spelled between the quotes; every place where JSON allows blanks holds the blanks that
 stand there, so that printing is exact for any well-formed text, compact or not.
 */
module JsonTree {
  import opened JsonText
  import opened Text

  datatype Json =
    | Str(spelling: string)
    | Scalar(word: string)
    | Array(blank: string, items: Items)
    | Object(blank: string, members: Members)

  datatype Items =
    | NoItems
    | Item(pre: string, value: Json, post: string, rest: Items)

  datatype Members =
    | NoMembers
    | Member(pre: string, name: string, mid: string, gap: string, value: Json, post: string, rest: Members)

  // ---- Printing ---------------------------------------------------------------

  function Print(t: Json): string {
    match t
    case Str(c) => Quote(c)
    case Scalar(w) => w
    case Array(blank, items) => "[" + blank + PrintItems(items, true) + "]"
    case Object(blank, members) => "{" + blank + PrintMembers(members, true) + "}"
  }

  function Comma(first: bool): string {
    if first then "" else ","
  }

  function PrintItems(items: Items, first: bool): string {
    match items
    case NoItems => ""
    case Item(pre, v, post, rest) => Comma(first) + pre + Print(v) + post + PrintItems(rest, false)
  }

  function PrintMembers(ms: Members, first: bool): string {
    match ms
    case NoMembers => ""
    case Member(pre, name, mid, gap, v, post, rest) =>
      Comma(first) + pre + PrintMember(name, mid, gap, Print(v), post) + PrintMembers(rest, false)
  }

  function PrintMember(name: string, mid: string, gap: string, value: string, post: string): string {
    Quote(name) + mid + ":" + gap + value + post
  }

  // ---- Well-formedness --------------------------------------------------------

  predicate IsStructural(c: char) {
    c == '\"' || c == '\\' || c == '[' || c == ']' || c == '{' || c == '}' || c == ',' || c == ':'
  }

  predicate PlainWord(w: string) {
    w != "" && forall i :: 0 <= i < |w| ==> !IsStructural(w[i]) && !IsBlank(w[i])
  }

  predicate WellFormed(t: Json) {
    match t
    case Str(c) => WellEscaped(c)
    case Scalar(w) => PlainWord(w)
    case Array(blank, items) => AllBlank(blank) && WellFormedItems(items)
    case Object(blank, members) => AllBlank(blank) && WellFormedMembers(members)
  }

  predicate WellFormedItems(items: Items) {
    match items
    case NoItems => true
    case Item(pre, v, post, rest) => AllBlank(pre) && WellFormed(v) && AllBlank(post) && WellFormedItems(rest)
  }

  predicate WellFormedMembers(ms: Members) {
    match ms
    case NoMembers => true
    case Member(pre, name, mid, gap, v, post, rest) =>
      && AllBlank(pre) && WellEscaped(name) && AllBlank(mid) && AllBlank(gap)
      && WellFormed(v) && AllBlank(post) && WellFormedMembers(rest)
  }

  /** No blanks anywhere. */
  predicate Compact(t: Json) {
    match t
    case Str(_) => true
    case Scalar(_) => true
    case Array(blank, items) => blank == "" && CompactItems(items)
    case Object(blank, members) => blank == "" && CompactMembers(members)
  }

  predicate CompactItems(items: Items) {
    match items
    case NoItems => true
    case Item(pre, v, post, rest) => pre == "" && Compact(v) && post == "" && CompactItems(rest)
  }

  predicate CompactMembers(ms: Members) {
    match ms
    case NoMembers => true
    case Member(pre, _, mid, gap, v, post, rest) =>
      pre == "" && mid == "" && gap == "" && Compact(v) && post == "" && CompactMembers(rest)
  }

  // ---- Removing members by name -----------------------------------------------

  /** Every member spelled `k` removed, at every depth. What stands between the opening
      brace and a member that becomes the first one stays. */
  function Remove(k: string, t: Json): Json {
    match t
    case Str(_) => t
    case Scalar(_) => t
    case Array(blank, items) => Array(blank, RemoveItems(k, items))
    case Object(blank, members) => Object(blank + LeadingBlanks(k, members), RemoveMembers(k, members))
  }

  function RemoveItems(k: string, items: Items): Items {
    match items
    case NoItems => NoItems
    case Item(pre, v, post, rest) => Item(pre, Remove(k, v), post, RemoveItems(k, rest))
  }

  function RemoveMembers(k: string, ms: Members): Members {
    match ms
    case NoMembers => NoMembers
    case Member(pre, name, mid, gap, v, post, rest) =>
      if name == k then RemoveMembers(k, rest)
      else Member(pre, name, mid, gap, Remove(k, v), post, RemoveMembers(k, rest))
  }

  /** The blanks in front of the removed members an object starts with. */
  function LeadingBlanks(k: string, ms: Members): string {
    match ms
    case NoMembers => ""
    case Member(pre, name, _, _, _, _, rest) => if name == k then pre + LeadingBlanks(k, rest) else ""
  }

  /** Is there a member spelled `k` at any depth? */
  predicate HasMember(k: string, t: Json) {
    match t
    case Str(_) => false
    case Scalar(_) => false
    case Array(_, items) => ItemsHaveMember(k, items)
    case Object(_, members) => MembersHave(k, members)
  }

  predicate ItemsHaveMember(k: string, items: Items) {
    match items
    case NoItems => false
    case Item(_, v, _, rest) => HasMember(k, v) || ItemsHaveMember(k, rest)
  }

  predicate MembersHave(k: string, ms: Members) {
    match ms
    case NoMembers => false
    case Member(_, name, _, _, v, _, rest) => name == k || HasMember(k, v) || MembersHave(k, rest)
  }

  lemma {:induction false} RemoveWellFormed(k: string, t: Json)
    requires WellFormed(t)
    ensures WellFormed(Remove(k, t))
    ensures Compact(t) ==> Compact(Remove(k, t))
  {
    match t
    case Str(_) =>
    case Scalar(_) =>
    case Array(_, items) => RemoveItemsWellFormed(k, items);
    case Object(_, members) => RemoveMembersWellFormed(k, members);
  }

  lemma {:induction false} RemoveItemsWellFormed(k: string, items: Items)
    requires WellFormedItems(items)
    ensures WellFormedItems(RemoveItems(k, items))
    ensures CompactItems(items) ==> CompactItems(RemoveItems(k, items))
  {
    if items.Item? {
      RemoveWellFormed(k, items.value);
      RemoveItemsWellFormed(k, items.rest);
    }
  }

  lemma {:induction false} RemoveMembersWellFormed(k: string, ms: Members)
    requires WellFormedMembers(ms)
    ensures WellFormedMembers(RemoveMembers(k, ms)) && AllBlank(LeadingBlanks(k, ms))
    ensures CompactMembers(ms) ==> CompactMembers(RemoveMembers(k, ms)) && LeadingBlanks(k, ms) == ""
  {
    if ms.Member? {
      RemoveWellFormed(k, ms.value);
      RemoveMembersWellFormed(k, ms.rest);
    }
  }

  /** Removal leaves no member of that name, and brings none of another name in. */
  lemma {:induction false} RemoveRemoves(k: string, t: Json)
    ensures !HasMember(k, Remove(k, t))
    ensures forall n :: HasMember(n, Remove(k, t)) ==> HasMember(n, t)
  {
    match t
    case Str(_) =>
    case Scalar(_) =>
    case Array(_, items) => RemoveItemsRemoves(k, items);
    case Object(_, members) => RemoveMembersRemoves(k, members);
  }

  lemma {:induction false} RemoveItemsRemoves(k: string, items: Items)
    ensures !ItemsHaveMember(k, RemoveItems(k, items))
    ensures forall n :: ItemsHaveMember(n, RemoveItems(k, items)) ==> ItemsHaveMember(n, items)
  {
    if items.Item? {
      RemoveRemoves(k, items.value);
      RemoveItemsRemoves(k, items.rest);
    }
  }

  lemma {:induction false} RemoveMembersRemoves(k: string, ms: Members)
    ensures !MembersHave(k, RemoveMembers(k, ms))
    ensures forall n :: MembersHave(n, RemoveMembers(k, ms)) ==> MembersHave(n, ms)
  {
    if ms.Member? {
      RemoveRemoves(k, ms.value);
      RemoveMembersRemoves(k, ms.rest);
    }
  }

  /** Where no member has the name, removal changes nothing. */
  lemma {:induction false} RemoveKeeps(k: string, t: Json)
    requires !HasMember(k, t)
    ensures Remove(k, t) == t
  {
    match t
    case Str(_) =>
    case Scalar(_) =>
    case Array(_, items) => RemoveItemsKeeps(k, items);
    case Object(blank, members) =>
      RemoveMembersKeeps(k, members);
      assert blank + "" == blank;
  }

  lemma {:induction false} RemoveItemsKeeps(k: string, items: Items)
    requires !ItemsHaveMember(k, items)
    ensures RemoveItems(k, items) == items
  {
    if items.Item? {
      RemoveKeeps(k, items.value);
      RemoveItemsKeeps(k, items.rest);
    }
  }

  lemma {:induction false} RemoveMembersKeeps(k: string, ms: Members)
    requires !MembersHave(k, ms)
    ensures RemoveMembers(k, ms) == ms && LeadingBlanks(k, ms) == ""
  {
    if ms.Member? {
      RemoveKeeps(k, ms.value);
      RemoveMembersKeeps(k, ms.rest);
    }
  }
}
