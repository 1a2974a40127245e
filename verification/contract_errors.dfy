/**
 * The POSIX error-code table `posix_error_t`: a constant, sparse mapping from
 * symbolic names to numbers, laid out in four historical layers. Two pairs of
 * names share a value (EAGAIN/EWOULDBLOCK = 11, ENOTSUP/EOPNOTSUPP = 95), the
 * numbering has gaps, and the declaration order is not the numeric order.
 */
module ErrorCatalog {
  import opened Text

  /** One constructor per enumerator, in declaration order (the `POSIX_` prefix dropped). */
  datatype PosixError =
    // Success
    | SUCCESS
    // Early Unix (Version 7, 1979): core file, process and memory errors
    | EPERM | ENOENT | ESRCH | EINTR | EIO | ENXIO | E2BIG | ENOEXEC | EBADF | ECHILD | EAGAIN
    | EWOULDBLOCK | ENOMEM | EACCES | EFAULT | EBUSY | EEXIST | EXDEV | ENODEV | ENOTDIR
    | EISDIR | EINVAL | ENFILE | EMFILE | ENOTTY | ETXTBSY | EFBIG | EPIPE | EDOM | ERANGE
    | EDEADLK | ENAMETOOLONG | ENOTEMPTY | ELOOP | EROFS | EMLINK | EIDRM
    // Structural extensions (1980s-1990s): IPC, real-time and filesystem limits
    | ETIME | ENOLINK | EPROTO | EOVERFLOW | ENOLCK | EILSEQ
    // Networking era (BSD 4.2+): socket and network errors
    | EMSGSIZE | EPROTOTYPE | EPROTONOSUPPORT | ENOTSUP | EOPNOTSUPP | ENETDOWN | ENETUNREACH
    | ETIMEDOUT | EHOSTUNREACH | EALREADY | EINPROGRESS | ESTALE
    // Modern POSIX (POSIX.1-2001): thread cancellation and robust mutexes
    | ECANCELED | EOWNERDEAD | ENOTRECOVERABLE

  /** The enumerator's numeric value. */
  function Value(e: PosixError): (v: int)
    ensures 0 <= v <= 131
    ensures v == 0 <==> e == SUCCESS
  {
    match e
    case SUCCESS => 0
    case EPERM => 1
    case ENOENT => 2
    case ESRCH => 3
    case EINTR => 4
    case EIO => 5
    case ENXIO => 6
    case E2BIG => 7
    case ENOEXEC => 8
    case EBADF => 9
    case ECHILD => 10
    case EAGAIN => 11
    case EWOULDBLOCK => 11
    case ENOMEM => 12
    case EACCES => 13
    case EFAULT => 14
    case EBUSY => 16
    case EEXIST => 17
    case EXDEV => 18
    case ENODEV => 19
    case ENOTDIR => 20
    case EISDIR => 21
    case EINVAL => 22
    case ENFILE => 23
    case EMFILE => 24
    case ENOTTY => 25
    case ETXTBSY => 26
    case EFBIG => 27
    case EPIPE => 32
    case EDOM => 33
    case ERANGE => 34
    case EDEADLK => 35
    case ENAMETOOLONG => 36
    case ENOTEMPTY => 39
    case ELOOP => 40
    case EROFS => 30
    case EMLINK => 31
    case EIDRM => 43
    case ETIME => 62
    case ENOLINK => 67
    case EPROTO => 71
    case EOVERFLOW => 75
    case ENOLCK => 77
    case EILSEQ => 84
    case EMSGSIZE => 90
    case EPROTOTYPE => 91
    case EPROTONOSUPPORT => 93
    case ENOTSUP => 95
    case EOPNOTSUPP => 95
    case ENETDOWN => 100
    case ENETUNREACH => 101
    case ETIMEDOUT => 110
    case EHOSTUNREACH => 113
    case EALREADY => 114
    case EINPROGRESS => 115
    case ESTALE => 116
    case ECANCELED => 125
    case EOWNERDEAD => 130
    case ENOTRECOVERABLE => 131
  }

  /**
   * The enumerator declared at position `i` (a decision tree over the
   * positions, so that each lookup is a handful of comparisons for the prover).
   */
  function DeclaredAt(i: nat): PosixError
    requires i < DeclaredCount
  {
    if i < 29 then
      if i < 14 then
        if i < 7 then
          if i < 3 then
            if i == 0 then SUCCESS else
            if i == 1 then EPERM else
            ENOENT
          else
            if i == 3 then ESRCH else
            if i == 4 then EINTR else
            if i == 5 then EIO else
            ENXIO
        else
          if i < 10 then
            if i == 7 then E2BIG else
            if i == 8 then ENOEXEC else
            EBADF
          else
            if i == 10 then ECHILD else
            if i == 11 then EAGAIN else
            if i == 12 then EWOULDBLOCK else
            ENOMEM
      else
        if i < 21 then
          if i < 17 then
            if i == 14 then EACCES else
            if i == 15 then EFAULT else
            EBUSY
          else
            if i == 17 then EEXIST else
            if i == 18 then EXDEV else
            if i == 19 then ENODEV else
            ENOTDIR
        else
          if i < 25 then
            if i == 21 then EISDIR else
            if i == 22 then EINVAL else
            if i == 23 then ENFILE else
            EMFILE
          else
            if i == 25 then ENOTTY else
            if i == 26 then ETXTBSY else
            if i == 27 then EFBIG else
            EPIPE
    else
      if i < 43 then
        if i < 36 then
          if i < 32 then
            if i == 29 then EDOM else
            if i == 30 then ERANGE else
            EDEADLK
          else
            if i == 32 then ENAMETOOLONG else
            if i == 33 then ENOTEMPTY else
            if i == 34 then ELOOP else
            EROFS
        else
          if i < 39 then
            if i == 36 then EMLINK else
            if i == 37 then EIDRM else
            ETIME
          else
            if i == 39 then ENOLINK else
            if i == 40 then EPROTO else
            if i == 41 then EOVERFLOW else
            ENOLCK
      else
        if i < 50 then
          if i < 46 then
            if i == 43 then EILSEQ else
            if i == 44 then EMSGSIZE else
            EPROTOTYPE
          else
            if i == 46 then EPROTONOSUPPORT else
            if i == 47 then ENOTSUP else
            if i == 48 then EOPNOTSUPP else
            ENETDOWN
        else
          if i < 54 then
            if i == 50 then ENETUNREACH else
            if i == 51 then ETIMEDOUT else
            if i == 52 then EHOSTUNREACH else
            EALREADY
          else
            if i == 54 then EINPROGRESS else
            if i == 55 then ESTALE else
            if i == 56 then ECANCELED else
            if i == 57 then EOWNERDEAD else
            ENOTRECOVERABLE
  }

  /** The number of enumerators the enum declares. */
  const DeclaredCount := 59

  /** Position of `e` in the declaration. */
  function DeclarationIndex(e: PosixError): (i: nat)
    ensures i < DeclaredCount && DeclaredAt(i) == e
  {
    match e
    case SUCCESS => 0
    case EPERM => 1
    case ENOENT => 2
    case ESRCH => 3
    case EINTR => 4
    case EIO => 5
    case ENXIO => 6
    case E2BIG => 7
    case ENOEXEC => 8
    case EBADF => 9
    case ECHILD => 10
    case EAGAIN => 11
    case EWOULDBLOCK => 12
    case ENOMEM => 13
    case EACCES => 14
    case EFAULT => 15
    case EBUSY => 16
    case EEXIST => 17
    case EXDEV => 18
    case ENODEV => 19
    case ENOTDIR => 20
    case EISDIR => 21
    case EINVAL => 22
    case ENFILE => 23
    case EMFILE => 24
    case ENOTTY => 25
    case ETXTBSY => 26
    case EFBIG => 27
    case EPIPE => 28
    case EDOM => 29
    case ERANGE => 30
    case EDEADLK => 31
    case ENAMETOOLONG => 32
    case ENOTEMPTY => 33
    case ELOOP => 34
    case EROFS => 35
    case EMLINK => 36
    case EIDRM => 37
    case ETIME => 38
    case ENOLINK => 39
    case EPROTO => 40
    case EOVERFLOW => 41
    case ENOLCK => 42
    case EILSEQ => 43
    case EMSGSIZE => 44
    case EPROTOTYPE => 45
    case EPROTONOSUPPORT => 46
    case ENOTSUP => 47
    case EOPNOTSUPP => 48
    case ENETDOWN => 49
    case ENETUNREACH => 50
    case ETIMEDOUT => 51
    case EHOSTUNREACH => 52
    case EALREADY => 53
    case EINPROGRESS => 54
    case ESTALE => 55
    case ECANCELED => 56
    case EOWNERDEAD => 57
    case ENOTRECOVERABLE => 58
  }

  /** The enumerators' values in declaration order (the order of the packed message blob). */
  function DeclaredValues(): (vs: seq<int>)
    ensures |vs| == DeclaredCount
    ensures forall e :: vs[DeclarationIndex(e)] == Value(e)
  {
    seq(DeclaredCount, i requires 0 <= i < DeclaredCount => Value(DeclaredAt(i)))
  }

  /**
   * The declared values repeat the alias codes: 11 appears at EAGAIN's and at
   * EWOULDBLOCK's position, 95 at ENOTSUP's and at EOPNOTSUPP's, the first
   * name of each pair coming first.
   */
  lemma DeclaredValuesRepeatAliases()
    ensures DeclarationIndex(EAGAIN) < DeclarationIndex(EWOULDBLOCK)
    ensures DeclaredValues()[DeclarationIndex(EAGAIN)] == 11
    ensures DeclaredValues()[DeclarationIndex(EWOULDBLOCK)] == 11
    ensures DeclarationIndex(ENOTSUP) < DeclarationIndex(EOPNOTSUPP)
    ensures DeclaredValues()[DeclarationIndex(ENOTSUP)] == 95
    ensures DeclaredValues()[DeclarationIndex(EOPNOTSUPP)] == 95
  {
  }

  /**
   * Lookup keyed on the numeric value: the first-declared name carrying `v`,
   * or None for a value no enumerator has. Keying on the value makes the two
   * alias pairs indistinguishable by construction. The values are searched in
   * ranges, each range trying its names in declaration order.
   */
  function NameOf(v: int): (r: Option<PosixError>)
    ensures r.Some? ==> Value(r.value) == v
  {
    if v <= 15 then NameIn0To14(v)
    else if v <= 29 then NameIn16To27(v)
    else if v <= 61 then NameIn30To43(v)
    else if v <= 89 then NameIn62To84(v)
    else if v <= 99 then NameIn90To95(v)
    else if v <= 112 then NameIn100To110(v)
    else if v <= 124 then NameIn113To116(v)
    else NameIn125To131(v)
  }

  /** Values 0..14: SUCCESS and the first early Unix names. */
  function NameIn0To14(v: int): (r: Option<PosixError>)
    ensures r.Some? ==> Value(r.value) == v
  {
    if v == 0 then Some(SUCCESS) else
    if v == 1 then Some(EPERM) else
    if v == 2 then Some(ENOENT) else
    if v == 3 then Some(ESRCH) else
    if v == 4 then Some(EINTR) else
    if v == 5 then Some(EIO) else
    if v == 6 then Some(ENXIO) else
    if v == 7 then Some(E2BIG) else
    if v == 8 then Some(ENOEXEC) else
    if v == 9 then Some(EBADF) else
    if v == 10 then Some(ECHILD) else
    if v == 11 then Some(EAGAIN) else
    if v == 12 then Some(ENOMEM) else
    if v == 13 then Some(EACCES) else
    if v == 14 then Some(EFAULT) else
    None
  }

  /** Values 16..27: early Unix names. */
  function NameIn16To27(v: int): (r: Option<PosixError>)
    ensures r.Some? ==> Value(r.value) == v
  {
    if v == 16 then Some(EBUSY) else
    if v == 17 then Some(EEXIST) else
    if v == 18 then Some(EXDEV) else
    if v == 19 then Some(ENODEV) else
    if v == 20 then Some(ENOTDIR) else
    if v == 21 then Some(EISDIR) else
    if v == 22 then Some(EINVAL) else
    if v == 23 then Some(ENFILE) else
    if v == 24 then Some(EMFILE) else
    if v == 25 then Some(ENOTTY) else
    if v == 26 then Some(ETXTBSY) else
    if v == 27 then Some(EFBIG) else
    None
  }

  /** Values 30..43: the last early Unix names, declared out of numeric order. */
  function NameIn30To43(v: int): (r: Option<PosixError>)
    ensures r.Some? ==> Value(r.value) == v
  {
    if v == 32 then Some(EPIPE) else
    if v == 33 then Some(EDOM) else
    if v == 34 then Some(ERANGE) else
    if v == 35 then Some(EDEADLK) else
    if v == 36 then Some(ENAMETOOLONG) else
    if v == 39 then Some(ENOTEMPTY) else
    if v == 40 then Some(ELOOP) else
    if v == 30 then Some(EROFS) else
    if v == 31 then Some(EMLINK) else
    if v == 43 then Some(EIDRM) else
    None
  }

  /** Values 62..84: the structural layer. */
  function NameIn62To84(v: int): (r: Option<PosixError>)
    ensures r.Some? ==> Value(r.value) == v
  {
    if v == 62 then Some(ETIME) else
    if v == 67 then Some(ENOLINK) else
    if v == 71 then Some(EPROTO) else
    if v == 75 then Some(EOVERFLOW) else
    if v == 77 then Some(ENOLCK) else
    if v == 84 then Some(EILSEQ) else
    None
  }

  /** Values 90..95: the first networking names. */
  function NameIn90To95(v: int): (r: Option<PosixError>)
    ensures r.Some? ==> Value(r.value) == v
  {
    if v == 90 then Some(EMSGSIZE) else
    if v == 91 then Some(EPROTOTYPE) else
    if v == 93 then Some(EPROTONOSUPPORT) else
    if v == 95 then Some(ENOTSUP) else
    None
  }

  /** Values 100..110: networking names. */
  function NameIn100To110(v: int): (r: Option<PosixError>)
    ensures r.Some? ==> Value(r.value) == v
  {
    if v == 100 then Some(ENETDOWN) else
    if v == 101 then Some(ENETUNREACH) else
    if v == 110 then Some(ETIMEDOUT) else
    None
  }

  /** Values 113..116: the last networking names. */
  function NameIn113To116(v: int): (r: Option<PosixError>)
    ensures r.Some? ==> Value(r.value) == v
  {
    if v == 113 then Some(EHOSTUNREACH) else
    if v == 114 then Some(EALREADY) else
    if v == 115 then Some(EINPROGRESS) else
    if v == 116 then Some(ESTALE) else
    None
  }

  /** Values 125..131: the modern layer. */
  function NameIn125To131(v: int): (r: Option<PosixError>)
    ensures r.Some? ==> Value(r.value) == v
  {
    if v == 125 then Some(ECANCELED) else
    if v == 130 then Some(EOWNERDEAD) else
    if v == 131 then Some(ENOTRECOVERABLE) else
    None
  }

  /** The later-declared name of an alias pair maps to the earlier one; every other name to itself. */
  function Canonical(e: PosixError): PosixError {
    if e == EWOULDBLOCK then EAGAIN else if e == EOPNOTSUPP then ENOTSUP else e
  }

  /** Looking a name's value up gives back the name, or the first name of its alias pair. */
  lemma NameOfValue(e: PosixError)
    ensures NameOf(Value(e)) == Some(Canonical(e))
    ensures DeclarationIndex(Canonical(e)) <= DeclarationIndex(e)
  {
    if e in {SUCCESS, EPERM, ENOENT, ESRCH, EINTR, EIO, ENXIO, E2BIG, ENOEXEC, EBADF, ECHILD,
          EAGAIN, EWOULDBLOCK, ENOMEM, EACCES, EFAULT} {
      NameIn0To14OfValue(e);
    } else if e in {EBUSY, EEXIST, EXDEV, ENODEV, ENOTDIR, EISDIR, EINVAL, ENFILE, EMFILE,
          ENOTTY, ETXTBSY, EFBIG} {
      NameIn16To27OfValue(e);
    } else if e in {EPIPE, EDOM, ERANGE, EDEADLK, ENAMETOOLONG, ENOTEMPTY, ELOOP, EROFS, EMLINK,
          EIDRM} {
      NameIn30To43OfValue(e);
    } else if e in {ETIME, ENOLINK, EPROTO, EOVERFLOW, ENOLCK, EILSEQ} {
      NameIn62To84OfValue(e);
    } else if e in {EMSGSIZE, EPROTOTYPE, EPROTONOSUPPORT, ENOTSUP, EOPNOTSUPP} {
      NameIn90To95OfValue(e);
    } else if e in {ENETDOWN, ENETUNREACH, ETIMEDOUT} {
      NameIn100To110OfValue(e);
    } else if e in {EHOSTUNREACH, EALREADY, EINPROGRESS, ESTALE} {
      NameIn113To116OfValue(e);
    } else {
      NameIn125To131OfValue(e);
    }
  }

  lemma NameIn0To14OfValue(e: PosixError)
    requires e in {SUCCESS, EPERM, ENOENT, ESRCH, EINTR, EIO, ENXIO, E2BIG, ENOEXEC, EBADF,
          ECHILD, EAGAIN, EWOULDBLOCK, ENOMEM, EACCES, EFAULT}
    ensures NameOf(Value(e)) == Some(Canonical(e))
    ensures DeclarationIndex(Canonical(e)) <= DeclarationIndex(e)
  {
    match e
    case SUCCESS =>
    case EPERM =>
    case ENOENT =>
    case ESRCH =>
    case EINTR =>
    case EIO =>
    case ENXIO =>
    case E2BIG =>
    case ENOEXEC =>
    case EBADF =>
    case ECHILD =>
    case EAGAIN =>
    case EWOULDBLOCK =>
    case ENOMEM =>
    case EACCES =>
    case EFAULT =>
  }

  lemma NameIn16To27OfValue(e: PosixError)
    requires e in {EBUSY, EEXIST, EXDEV, ENODEV, ENOTDIR, EISDIR, EINVAL, ENFILE, EMFILE,
          ENOTTY, ETXTBSY, EFBIG}
    ensures NameOf(Value(e)) == Some(Canonical(e))
    ensures DeclarationIndex(Canonical(e)) <= DeclarationIndex(e)
  {
    match e
    case EBUSY =>
    case EEXIST =>
    case EXDEV =>
    case ENODEV =>
    case ENOTDIR =>
    case EISDIR =>
    case EINVAL =>
    case ENFILE =>
    case EMFILE =>
    case ENOTTY =>
    case ETXTBSY =>
    case EFBIG =>
  }

  lemma NameIn30To43OfValue(e: PosixError)
    requires e in {EPIPE, EDOM, ERANGE, EDEADLK, ENAMETOOLONG, ENOTEMPTY, ELOOP, EROFS, EMLINK,
          EIDRM}
    ensures NameOf(Value(e)) == Some(Canonical(e))
    ensures DeclarationIndex(Canonical(e)) <= DeclarationIndex(e)
  {
    match e
    case EPIPE =>
    case EDOM =>
    case ERANGE =>
    case EDEADLK =>
    case ENAMETOOLONG =>
    case ENOTEMPTY =>
    case ELOOP =>
    case EROFS =>
    case EMLINK =>
    case EIDRM =>
  }

  lemma NameIn62To84OfValue(e: PosixError)
    requires e in {ETIME, ENOLINK, EPROTO, EOVERFLOW, ENOLCK, EILSEQ}
    ensures NameOf(Value(e)) == Some(Canonical(e))
    ensures DeclarationIndex(Canonical(e)) <= DeclarationIndex(e)
  {
    match e
    case ETIME =>
    case ENOLINK =>
    case EPROTO =>
    case EOVERFLOW =>
    case ENOLCK =>
    case EILSEQ =>
  }

  lemma NameIn90To95OfValue(e: PosixError)
    requires e in {EMSGSIZE, EPROTOTYPE, EPROTONOSUPPORT, ENOTSUP, EOPNOTSUPP}
    ensures NameOf(Value(e)) == Some(Canonical(e))
    ensures DeclarationIndex(Canonical(e)) <= DeclarationIndex(e)
  {
    match e
    case EMSGSIZE =>
    case EPROTOTYPE =>
    case EPROTONOSUPPORT =>
    case ENOTSUP =>
    case EOPNOTSUPP =>
  }

  lemma NameIn100To110OfValue(e: PosixError)
    requires e in {ENETDOWN, ENETUNREACH, ETIMEDOUT}
    ensures NameOf(Value(e)) == Some(Canonical(e))
    ensures DeclarationIndex(Canonical(e)) <= DeclarationIndex(e)
  {
    match e
    case ENETDOWN =>
    case ENETUNREACH =>
    case ETIMEDOUT =>
  }

  lemma NameIn113To116OfValue(e: PosixError)
    requires e in {EHOSTUNREACH, EALREADY, EINPROGRESS, ESTALE}
    ensures NameOf(Value(e)) == Some(Canonical(e))
    ensures DeclarationIndex(Canonical(e)) <= DeclarationIndex(e)
  {
    match e
    case EHOSTUNREACH =>
    case EALREADY =>
    case EINPROGRESS =>
    case ESTALE =>
  }

  lemma NameIn125To131OfValue(e: PosixError)
    requires e in {ECANCELED, EOWNERDEAD, ENOTRECOVERABLE}
    ensures NameOf(Value(e)) == Some(Canonical(e))
    ensures DeclarationIndex(Canonical(e)) <= DeclarationIndex(e)
  {
    match e
    case ECANCELED =>
    case EOWNERDEAD =>
    case ENOTRECOVERABLE =>
  }

  /** A value has a name exactly when some enumerator carries it. */
  lemma NameOfRegistered(v: int)
    ensures NameOf(v).Some? <==> exists e :: Value(e) == v
  {
    if e :| Value(e) == v {
      NameOfValue(e);
    }
  }

  /** EAGAIN/EWOULDBLOCK and ENOTSUP/EOPNOTSUPP are the only names that share a value. */
  lemma OnlyTwoAliasPairs(a: PosixError, b: PosixError)
    requires a != b && Value(a) == Value(b)
    ensures {a, b} == {EAGAIN, EWOULDBLOCK} || {a, b} == {ENOTSUP, EOPNOTSUPP}
  {
    NameOfValue(a);
    NameOfValue(b);
    CanonicalCollision(a, b);
  }

  lemma CanonicalCollision(a: PosixError, b: PosixError)
    requires a != b && Canonical(a) == Canonical(b)
    ensures {a, b} == {EAGAIN, EWOULDBLOCK} || {a, b} == {ENOTSUP, EOPNOTSUPP}
  {
    if Canonical(a) == EAGAIN {
      assert {a, b} == {EAGAIN, EWOULDBLOCK};
    } else {
      assert {a, b} == {ENOTSUP, EOPNOTSUPP};
    }
  }

  /** Both alias pairs: the names differ, the values agree. */
  lemma AliasPairs()
    ensures Value(EAGAIN) == Value(EWOULDBLOCK) == 11
    ensures Value(ENOTSUP) == Value(EOPNOTSUPP) == 95
  {
  }

  /** The numbering is sparse: values inside the occupied range that no name carries. */
  lemma Gaps(v: int)
    requires v in {15, 28, 29, 37, 38, 41, 42}
    ensures NameOf(v) == None
    ensures forall e :: Value(e) != v
  {
    NameOfRegistered(v);
  }

  /** EROFS (30) and EMLINK (31) are declared after ELOOP (40). */
  lemma DeclarationOrderIsNotNumeric()
    ensures DeclarationIndex(ELOOP) < DeclarationIndex(EROFS) && Value(EROFS) < Value(ELOOP)
    ensures DeclarationIndex(ELOOP) < DeclarationIndex(EMLINK) && Value(EMLINK) < Value(ELOOP)
  {
  }

  /** The historical layers of the enum, oldest first. */
  datatype Layer = Success | EarlyUnix | Structural | Networking | Modern {
    function Rank(): nat {
      match this
      case Success => 0
      case EarlyUnix => 1
      case Structural => 2
      case Networking => 3
      case Modern => 4
    }

    /** The smallest and the largest value the layer's names use. */
    function Low(): int {
      match this
      case Success => 0
      case EarlyUnix => 1
      case Structural => 62
      case Networking => 90
      case Modern => 125
    }

    function High(): int {
      match this
      case Success => 0
      case EarlyUnix => 43
      case Structural => 84
      case Networking => 116
      case Modern => 131
    }
  }

  /** The layer whose comment block declares `e`; SUCCESS stands alone in its own. */
  function LayerOf(e: PosixError): (l: Layer)
    ensures l == Success <==> e == SUCCESS
  {
    match e
    case SUCCESS => Success
    case EPERM => EarlyUnix
    case ENOENT => EarlyUnix
    case ESRCH => EarlyUnix
    case EINTR => EarlyUnix
    case EIO => EarlyUnix
    case ENXIO => EarlyUnix
    case E2BIG => EarlyUnix
    case ENOEXEC => EarlyUnix
    case EBADF => EarlyUnix
    case ECHILD => EarlyUnix
    case EAGAIN => EarlyUnix
    case EWOULDBLOCK => EarlyUnix
    case ENOMEM => EarlyUnix
    case EACCES => EarlyUnix
    case EFAULT => EarlyUnix
    case EBUSY => EarlyUnix
    case EEXIST => EarlyUnix
    case EXDEV => EarlyUnix
    case ENODEV => EarlyUnix
    case ENOTDIR => EarlyUnix
    case EISDIR => EarlyUnix
    case EINVAL => EarlyUnix
    case ENFILE => EarlyUnix
    case EMFILE => EarlyUnix
    case ENOTTY => EarlyUnix
    case ETXTBSY => EarlyUnix
    case EFBIG => EarlyUnix
    case EPIPE => EarlyUnix
    case EDOM => EarlyUnix
    case ERANGE => EarlyUnix
    case EDEADLK => EarlyUnix
    case ENAMETOOLONG => EarlyUnix
    case ENOTEMPTY => EarlyUnix
    case ELOOP => EarlyUnix
    case EROFS => EarlyUnix
    case EMLINK => EarlyUnix
    case EIDRM => EarlyUnix
    case ETIME => Structural
    case ENOLINK => Structural
    case EPROTO => Structural
    case EOVERFLOW => Structural
    case ENOLCK => Structural
    case EILSEQ => Structural
    case EMSGSIZE => Networking
    case EPROTOTYPE => Networking
    case EPROTONOSUPPORT => Networking
    case ENOTSUP => Networking
    case EOPNOTSUPP => Networking
    case ENETDOWN => Networking
    case ENETUNREACH => Networking
    case ETIMEDOUT => Networking
    case EHOSTUNREACH => Networking
    case EALREADY => Networking
    case EINPROGRESS => Networking
    case ESTALE => Networking
    case ECANCELED => Modern
    case EOWNERDEAD => Modern
    case ENOTRECOVERABLE => Modern
  }

  /** Each layer occupies one contiguous run of the declaration. */
  function LayerAt(i: nat): Layer {
    if i == 0 then Success
    else if i <= 37 then EarlyUnix
    else if i <= 43 then Structural
    else if i <= 55 then Networking
    else Modern
  }

  /** Every name's value lies in the range of its layer. */
  lemma LayerBounds(e: PosixError)
    ensures LayerOf(e).Low() <= Value(e) <= LayerOf(e).High()
  {
  }

  /** A name's layer is the layer of its position in the declaration. */
  lemma LayerMatchesDeclaration(e: PosixError)
    ensures LayerOf(e) == LayerAt(DeclarationIndex(e))
  {
  }

  /** The layers occupy disjoint value ranges that increase with age of introduction. */
  lemma LayersAreOrderedByValue(a: PosixError, b: PosixError)
    requires LayerOf(a).Rank() < LayerOf(b).Rank()
    ensures Value(a) < Value(b)
  {
    LayerBounds(a);
    LayerBounds(b);
  }

  /** Declaration order never goes back to an older layer. */
  lemma LayersFollowDeclarationOrder(a: PosixError, b: PosixError)
    requires DeclarationIndex(a) <= DeclarationIndex(b)
    ensures LayerOf(a).Rank() <= LayerOf(b).Rank()
  {
    LayerMatchesDeclaration(a);
    LayerMatchesDeclaration(b);
  }

  /** The text of the enumerator's doc comment. */
  function Description(e: PosixError): (d: string)
    ensures |d| > 0
  {
    match e
    case SUCCESS => "No error; operation succeeded"
    case EPERM => "Operation not permitted"
    case ENOENT => "No such file or directory"
    case ESRCH => "No such process"
    case EINTR => "Interrupted system call"
    case EIO => "Input/output error"
    case ENXIO => "No such device or address"
    case E2BIG => "Argument list too long"
    case ENOEXEC => "Executable file format error"
    case EBADF => "Bad file descriptor"
    case ECHILD => "No child processes"
    case EAGAIN => "Resource unavailable, try again"
    case EWOULDBLOCK => "Operation would block (same as EAGAIN)"
    case ENOMEM => "Out of memory"
    case EACCES => "Permission denied"
    case EFAULT => "Bad address"
    case EBUSY => "Device or resource busy"
    case EEXIST => "File exists"
    case EXDEV => "Cross-device link"
    case ENODEV => "No such device"
    case ENOTDIR => "Not a directory"
    case EISDIR => "Is a directory"
    case EINVAL => "Invalid argument"
    case ENFILE => "Too many files open in system"
    case EMFILE => "Too many open files"
    case ENOTTY => "Inappropriate I/O control operation"
    case ETXTBSY => "Text file busy"
    case EFBIG => "File too large"
    case EPIPE => "Broken pipe"
    case EDOM => "Numerical argument out of domain"
    case ERANGE => "Result too large"
    case EDEADLK => "Resource deadlock would occur"
    case ENAMETOOLONG => "File name too long"
    case ENOTEMPTY => "Directory not empty"
    case ELOOP => "Too many levels of symbolic links"
    case EROFS => "Read-only file system"
    case EMLINK => "Too many links"
    case EIDRM => "Identifier removed"
    case ETIME => "Timer expired"
    case ENOLINK => "Link has been severed"
    case EPROTO => "Protocol error"
    case EOVERFLOW => "Value too large to be stored in data type"
    case ENOLCK => "No locks available"
    case EILSEQ => "Illegal byte sequence"
    case EMSGSIZE => "Message too long"
    case EPROTOTYPE => "Protocol wrong type for socket"
    case EPROTONOSUPPORT => "Protocol not supported"
    case ENOTSUP => "Operation not supported"
    case EOPNOTSUPP => "Operation not supported on socket"
    case ENETDOWN => "Network is down"
    case ENETUNREACH => "Network is unreachable"
    case ETIMEDOUT => "Connection timed out"
    case EHOSTUNREACH => "No route to host"
    case EALREADY => "Connection already in progress"
    case EINPROGRESS => "Operation in progress"
    case ESTALE => "Stale file handle"
    case ECANCELED => "Operation canceled"
    case EOWNERDEAD => "Previous owner died"
    case ENOTRECOVERABLE => "State not recoverable"
  }

  /**
   * The catalog lookup `contract_strerror`, keyed on the numeric value. Its
   * fallback text for an unregistered value is not known here: None stands for it.
   */
  function Strerror(v: int): (r: Option<string>)
    ensures r.Some? <==> exists e :: Value(e) == v
    ensures r.Some? ==> |r.value| > 0
  {
    NameOfRegistered(v);
    match NameOf(v)
    case Some(e) => Some(Description(e))
    case None => None
  }

  /**
   * Names that share a value resolve to the same first-declared name, and
   * the lookup answers with that name's description for both.
   */
  lemma StrerrorIsAliasTransparent(a: PosixError, b: PosixError)
    requires Value(a) == Value(b)
    ensures Canonical(a) == Canonical(b)
    ensures Strerror(Value(a)) == Some(Description(Canonical(a)))
  {
    NameOfValue(a);
    NameOfValue(b);
  }
}
