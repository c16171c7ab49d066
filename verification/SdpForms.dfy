/** Which session descriptions print faithfully, which print stably, and what comes back of them. */
module SdpForms {
  import opened Common
  import opened Text
  import opened Sdp

  // ---------------------------------------------------------------- what can be printed faithfully

  predicate IsInt64(n: int) { MIN_INT64 <= n <= MAX_INT64 }

  predicate PrintableOrigin(o: Origin)
  {
    forall f :: f in OriginFields(o) ==> IsToken(f)
  }

  predicate PrintableConnection(c: Connection)
  {
    IsToken(c.networkType) && IsToken(c.addressType) && IsToken(c.address)
  }

  ghost predicate PrintableBandwidth(b: Bandwidth)
  {
    ':' !in b.kind && Unbroken(b.kind) && Unbroken(b.value) && !EndsInSpace(b.value)
  }

  /** Two tokens, or a single piece of text with at most one token in it. */
  ghost predicate PrintableTiming(t: Timing)
  {
    || (IsToken(t.start) && IsToken(t.stop))
    || (t.stop == "" && |Fields(t.start)| <= 1 && !EndsInSpace(t.start) && Unbroken(t.start))
  }

  ghost predicate PrintableAttribute(a: Attribute)
  {
    ':' !in a.name && Unbroken(a.name) && Unbroken(a.value) && !EndsInSpace(a.value)
  }

  ghost predicate WritableMedia(m: Media)
  {
    && IsToken(m.kind) && IsInt64(m.port) && IsToken(m.protocol)
    && (forall f :: f in m.formats ==> IsToken(f))
    && Unbroken(m.title)
    && (m.connection.Some? ==> PrintableConnection(m.connection.value))
    && (forall b :: b in m.bandwidth ==> PrintableBandwidth(b))
    && (forall a :: a in m.attributes ==> PrintableAttribute(a))
  }

  /** The parser wants at least one format in an `m=` line. */
  ghost predicate PrintableMedia(m: Media) { WritableMedia(m) && |m.formats| > 0 }

  ghost predicate PrintableHeader(s: Session)
  {
    && IsInt64(s.version)
    && Unbroken(s.sessionName) && !EndsInSpace(s.sessionName)
    && (s.connection.Some? ==> PrintableConnection(s.connection.value))
    && (forall b :: b in s.bandwidth ==> PrintableBandwidth(b))
    && (forall t :: t in s.timing ==> PrintableTiming(t))
    && (forall a :: a in s.attributes ==> PrintableAttribute(a))
  }

  /** Everything printable but the origin, which a text without an `o=` line leaves blank. */
  ghost predicate PrintableBody(s: Session)
  {
    PrintableHeader(s) && forall m :: m in s.media ==> PrintableMedia(m)
  }

  ghost predicate Printable(s: Session) { PrintableOrigin(s.origin) && PrintableBody(s) }

  /** Printable, but for formats that a section may still lack. */
  ghost predicate Writable(s: Session)
  {
    PrintableOrigin(s.origin) && PrintableHeader(s) && forall m :: m in s.media ==> WritableMedia(m)
  }

  // ---------------------------------------------------------------- what a reprint does not change

  predicate TidyAttribute(a: Attribute) { a.value == "" ==> !EndsInSpace(a.name) }

  predicate TidyMedia(m: Media)
  {
    m.title == "" && forall a :: a in m.attributes ==> TidyAttribute(a)
  }

  /** No title, and no valueless attribute whose name ends in white space. */
  predicate Tidy(s: Session)
  {
    && (forall a :: a in s.attributes ==> TidyAttribute(a))
    && (forall m :: m in s.media ==> TidyMedia(m))
  }

  predicate PlainConnection(c: Option<Connection>)
  {
    c.Some? ==> c.value.ttl == 0 && c.value.count == 0
  }

  /** The normal form: tidy, and no TTL or count in any connection. */
  predicate Normal(s: Session)
  {
    Tidy(s) && PlainConnection(s.connection) && forall m :: m in s.media ==> PlainConnection(m.connection)
  }

  // ---------------------------------------------------------------- what comes back

  function BackConnection(c: Connection): Connection
  {
    Connection(c.networkType, c.addressType, AddressText(c), 0, 0)
  }

  function BackAttribute(a: Attribute): Attribute
  {
    if a.value == "" then Attribute(TrimRight(a.name), "") else a
  }

  function BackMedia(m: Media): Media
  {
    Media(m.kind, m.port, m.protocol, m.formats, "", MapOption(BackConnection, m.connection),
          m.bandwidth, Map(BackAttribute, m.attributes), "")
  }

  function Back(s: Session, raw: string): Session
  {
    Session(s.version, s.origin, s.sessionName, MapOption(BackConnection, s.connection), s.bandwidth, s.timing,
            Map(BackMedia, s.media), Map(BackAttribute, s.attributes), raw)
  }

  function MediaWithoutRaw(m: Media): Media { m.(raw := "") }

  function WithoutRaw(s: Session): Session
  {
    s.(raw := "", media := Map(MediaWithoutRaw, s.media))
  }
}
