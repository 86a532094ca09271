/**
 The container file on disk and the one way it is rewritten: encrypt, write a sibling, set its mode, rename it over.
 The agent's `persist` and the TUI's add and delete all take these steps.
 */
module Containers {
  import opened Basics
  import opened Profiles

  /** A file holds a whole envelope, or the torn bytes of an unfinished write. Sealing is symbolic. */
  datatype Content = Sealed(kek: Kek, pset: ProfileSet) | Torn

  datatype Disk = Disk(container: Option<Content>, tmp: Option<Content>)

  /** Decryption: only a whole envelope sealed under the same key opens. */
  function Open(c: Option<Content>, kek: Kek): (r: Option<ProfileSet>)
    ensures forall pset :: c == Some(Sealed(kek, pset)) ==> r == Some(pset)
  {
    if c.Some? && c.value.Sealed? && c.value.kek == kek then Some(c.value.pset) else None
  }

  function DiskAliases(d: Disk): Option<seq<string>>
  {
    if d.container.Some? && d.container.value.Sealed? then Some(d.container.value.pset.Aliases()) else None
  }

  /** Which step fails, if any. */
  datatype SaveFault = NoFault | EncryptFails | MkdirFails | WriteFails | ChmodFails | RenameFails

  datatype SaveError = CryptoError | IoError

  function SaveOutcome(fault: SaveFault): Option<SaveError>
  {
    match fault
    case NoFault => None
    case EncryptFails => Some(CryptoError)
    case _ => Some(IoError)
  }

  /** The disk after a save that meets `fault`. */
  function AfterSave(d: Disk, pset: ProfileSet, kek: Kek, fault: SaveFault): Disk
  {
    match fault
    case NoFault => Disk(Some(Sealed(kek, pset)), None)
    case EncryptFails => d
    case MkdirFails => d
    case WriteFails => d.(tmp := Some(Torn))
    case ChmodFails => d.(tmp := Some(Sealed(kek, pset)))
    case RenameFails => d.(tmp := Some(Sealed(kek, pset)))
  }

  class ContainerFile {
    var container: Option<Content>
    var tmp: Option<Content>
    ghost var trace: seq<Disk>  // every disk state there has been, for what a crash could leave

    constructor (container: Option<Content>, tmp: Option<Content>)
      ensures this.container == container && this.tmp == tmp
      ensures trace == [Disk(container, tmp)]
    {
      this.container, this.tmp := container, tmp;
      trace := [Disk(container, tmp)];
    }

    ghost function Model(): Disk
      reads this
    {
      Disk(container, tmp)
    }

    method WriteTmp(content: Content)
      modifies this
      ensures container == old(container) && tmp == Some(content)
      ensures trace == old(trace) + [Disk(container, tmp)]
    {
      tmp := Some(content);
      trace := trace + [Disk(container, tmp)];
    }

    method RenameTmp()
      requires tmp.Some?
      modifies this
      ensures container == old(tmp) && tmp == None
      ensures trace == old(trace) + [Disk(container, tmp)]
    {
      container, tmp := tmp, None;
      trace := trace + [Disk(container, tmp)];
    }

    /**
     With no other save under way: success means the file opens to `set`; failure means the file is as before; and
     whenever the process dies on the way, the file is the whole old envelope or the whole new one.
     */
    method Save(pset: ProfileSet, kek: Kek, fault: SaveFault) returns (error: Option<SaveError>)
      modifies this
      ensures error == SaveOutcome(fault) && Model() == AfterSave(old(Model()), pset, kek, fault)
      ensures error.None? <==> fault == NoFault
      ensures error.None? ==> Open(container, kek) == Some(pset) && tmp == None
      ensures error.Some? ==> container == old(container)
      ensures old(trace) <= trace
      ensures forall i | |old(trace)| <= i < |trace| ::
                trace[i].container == old(container) || trace[i].container == Some(Sealed(kek, pset))
    {
      if fault == EncryptFails {
        return Some(CryptoError);
      }
      if fault == MkdirFails {
        return Some(IoError);
      }
      WriteTmp(Torn);
      if fault == WriteFails {
        return Some(IoError);
      }
      WriteTmp(Sealed(kek, pset));
      if fault == ChmodFails || fault == RenameFails {
        return Some(IoError);
      }
      RenameTmp();
      return None;
    }
  }
}
