/** The total orders in which the transactions of the graph take their locks. */
module Ordering {
  import opened Common
  import opened CodeGraph
  import Lexicographic

  function CodePoint(c: char): int {
    c as int
  }

  /** Code-point order on strings. */
  predicate Less(a: string, b: string) {
    Lexicographic.Less(CodePoint, a, b)
  }

  lemma LessTransitive(a: string, b: string, c: string)
    requires Less(a, b) && Less(b, c)
    ensures Less(a, c)
  {
    Lexicographic.Transitive(CodePoint, a, b, c);
  }

  lemma LessTrichotomy(a: string, b: string)
    ensures Less(a, b) || a == b || Less(b, a)
    ensures !(Less(a, b) && (a == b || Less(b, a)))
  {
    Lexicographic.Trichotomy(CodePoint, a, b);
  }

  /** Tenant first, then repository, then ACL group. */
  predicate ScopeLess(a: Scope, b: Scope) {
    if a.tenantId != b.tenantId then Less(a.tenantId, b.tenantId)
    else if a.repo != b.repo then Less(a.repo, b.repo)
    else Less(a.aclGroup, b.aclGroup)
  }

  lemma ScopeLessTransitive(a: Scope, b: Scope, c: Scope)
    requires ScopeLess(a, b) && ScopeLess(b, c)
    ensures ScopeLess(a, c)
  {
    LessTrichotomy(a.tenantId, b.tenantId);
    LessTrichotomy(b.tenantId, c.tenantId);
    LessTrichotomy(a.repo, b.repo);
    LessTrichotomy(b.repo, c.repo);
    if Less(a.tenantId, b.tenantId) && Less(b.tenantId, c.tenantId) {
      LessTransitive(a.tenantId, b.tenantId, c.tenantId);
      LessTrichotomy(a.tenantId, c.tenantId);
    }
    if Less(a.repo, b.repo) && Less(b.repo, c.repo) {
      LessTransitive(a.repo, b.repo, c.repo);
      LessTrichotomy(a.repo, c.repo);
    }
    if Less(a.aclGroup, b.aclGroup) && Less(b.aclGroup, c.aclGroup) {
      LessTransitive(a.aclGroup, b.aclGroup, c.aclGroup);
    }
  }

  lemma ScopeLessTrichotomy(a: Scope, b: Scope)
    ensures ScopeLess(a, b) || a == b || ScopeLess(b, a)
    ensures !(ScopeLess(a, b) && (a == b || ScopeLess(b, a)))
  {
    LessTrichotomy(a.tenantId, b.tenantId);
    LessTrichotomy(a.repo, b.repo);
    LessTrichotomy(a.aclGroup, b.aclGroup);
  }

  /** A lock of the graph store: one per node id and one per partition. */
  datatype Resource = NodeLock(id: Id) | PartitionLock(scope: Scope)

  /** Every node lock comes before every partition lock. */
  predicate Before(a: Resource, b: Resource) {
    match (a, b)
    case (NodeLock(x), NodeLock(y)) => Less(x, y)
    case (NodeLock(_), PartitionLock(_)) => true
    case (PartitionLock(_), NodeLock(_)) => false
    case (PartitionLock(x), PartitionLock(y)) => ScopeLess(x, y)
  }

  lemma BeforeTransitive(a: Resource, b: Resource, c: Resource)
    requires Before(a, b) && Before(b, c)
    ensures Before(a, c)
  {
    if a.NodeLock? && c.NodeLock? { LessTransitive(a.id, b.id, c.id); }
    if a.PartitionLock? && c.PartitionLock? { ScopeLessTransitive(a.scope, b.scope, c.scope); }
  }

  lemma BeforeTrichotomy(a: Resource, b: Resource)
    ensures Before(a, b) || a == b || Before(b, a)
    ensures !(Before(a, b) && (a == b || Before(b, a)))
  {
    if a.NodeLock? && b.NodeLock? { LessTrichotomy(a.id, b.id); }
    if a.PartitionLock? && b.PartitionLock? { ScopeLessTrichotomy(a.scope, b.scope); }
  }

  ghost predicate Ascending(s: seq<Resource>) {
    forall i, j :: 0 <= i < j < |s| ==> Before(s[i], s[j])
  }

  /** The distinct scopes among two optional ones, in scope order: the rows of the partition MERGE. */
  function ScopeRows(a: Option<Scope>, b: Option<Scope>): seq<Scope> {
    if a.None? && b.None? then []
    else if a.None? then [b.value]
    else if b.None? || a == b then [a.value]
    else if ScopeLess(a.value, b.value) then [a.value, b.value]
    else [b.value, a.value]
  }

  lemma ScopeRowsAreSortedAndComplete(a: Option<Scope>, b: Option<Scope>)
    ensures forall i, j :: 0 <= i < j < |ScopeRows(a, b)| ==> ScopeLess(ScopeRows(a, b)[i], ScopeRows(a, b)[j])
    ensures forall s :: s in ScopeRows(a, b) <==> s in ScopesOf(a, b)
  {
    if a.Some? && b.Some? { ScopeLessTrichotomy(a.value, b.value); }
  }
}
