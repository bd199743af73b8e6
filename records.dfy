/** The value types shared by the data layer: the Todo record, the row the
    table stores for it, and the error kinds the store reports. */
module Records {

  datatype Option<T> = None | Some(value: T)

  newtype byte = x: int | 0 <= x < 256

  /** A Go string is a sequence of bytes; `len` counts bytes, not characters. */
  type Text = seq<byte>

  /** A Go `[]string`: the nil slice is a value of its own, distinct from an
      empty non-nil slice, although both have length zero. */
  datatype Slice = Nil | Of(elems: seq<Text>) {
    function Elems(): (s: seq<Text>)
      ensures Nil? ==> s == []
      ensures Of? ==> s == elems
    {
      if Nil? then [] else elems
    }
  }

  /** An opaque timestamp; `ZeroTime` stands for Go's `time.Time{}`. */
  datatype Time = Time(ticks: int)

  const ZeroTime := Time(0)

  /** The eight fields a caller supplies, in the order the INSERT and UPDATE
      statements bind them. */
  datatype Fields = Fields(
    name: Text,
    level: Text,
    contact: Text,
    phone: Text,
    email: Text,
    website: Text,
    address: Text,
    mode: Slice)

  /** One row of the `todo` table. */
  datatype Row = Row(id: int, createdAt: Time, fields: Fields, version: int)

  /** `ErrRecordNotFound`, `ErrEditConflict`, and any other error, which the
      store passes on unchanged. */
  datatype Error = NotFound | EditConflict | Other(cause: string)

  /** The `Todo` struct. Callers hand the store a pointer to one, and the store
      writes results back into its fields. */
  class Todo {
    var id: int
    var createdAt: Time
    var name: Text
    var level: Text
    var contact: Text
    var phone: Text
    var email: Text
    var website: Text
    var address: Text
    var mode: Slice
    var version: int

    /** The caller-supplied part of the record. */
    function CallerFields(): Fields
      reads this
    {
      Fields(name, level, contact, phone, email, website, address, mode)
    }

    /** The whole record, as the table would hold it. */
    function AsRow(): Row
      reads this
    {
      Row(id, createdAt, CallerFields(), version)
    }

    /** A record not yet persisted: ID 0, zero creation time, version 0. */
    constructor (f: Fields)
      ensures CallerFields() == f
      ensures id == 0 && createdAt == ZeroTime && version == 0
    {
      id, createdAt, version := 0, ZeroTime, 0;
      name, level, contact, phone := f.name, f.level, f.contact, f.phone;
      email, website, address, mode := f.email, f.website, f.address, f.mode;
    }

    /** A record whose every field is scanned from a row. */
    constructor FromRow(r: Row)
      ensures AsRow() == r
    {
      id, createdAt, version := r.id, r.createdAt, r.version;
      name, level, contact, phone := r.fields.name, r.fields.level, r.fields.contact, r.fields.phone;
      email, website, address, mode := r.fields.email, r.fields.website, r.fields.address, r.fields.mode;
    }
  }
}
