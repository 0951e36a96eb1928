/**
 * The configuration record of the store (the shape of `IStorageConfig`) and the rule
 * by which `StorageConfig` fills each of its seven settings: the externally supplied
 * value when one is present, otherwise a fixed default.
 */
module Config {
  import opened Wrappers

  datatype StorageConfig = StorageConfig(
    autoLoad: bool,
    autoSave: bool,
    enableEncryption: bool,
    encryptionSalt: string,
    filename: string,
    baseDirectory: string,
    minutExpiryDefault: int)

  /** The seven settings as read from the external configuration source; `None` when absent or unparseable. */
  datatype ExternalSettings = ExternalSettings(
    autoLoad: Option<bool>,
    autoSave: Option<bool>,
    enableEncryption: Option<bool>,
    encryptionSalt: Option<string>,
    filename: Option<string>,
    baseDirectory: Option<string>,
    minutExpiryDefault: Option<int>)

  const DefaultAutoLoad: bool := true
  const DefaultAutoSave: bool := true
  const DefaultEnableEncryption: bool := false
  const DefaultEncryptionSalt: string := ".localstorage"
  const DefaultFilename: string := ".localstorage"
  const DefaultBaseDirectory: string := ""
  const DefaultMinutExpiryDefault: int := 1

  /** No external setting present at all. */
  const NoSettings: ExternalSettings := ExternalSettings(None, None, None, None, None, None, None)

  /** The external value when present, otherwise the default. */
  function OrDefault<T>(external: Option<T>, default: T): (r: T)
    ensures external.Some? ==> r == external.value
    ensures external.None? ==> r == default
  {
    match external
    case Some(v) => v
    case None => default
  }

  /** The configuration a fresh `StorageConfig` holds, given what the external source supplies. */
  function Resolve(ext: ExternalSettings): (c: StorageConfig)
    ensures ext.autoLoad.Some? ==> c.autoLoad == ext.autoLoad.value
    ensures ext.autoLoad.None? ==> c.autoLoad == DefaultAutoLoad
    ensures ext.autoSave.Some? ==> c.autoSave == ext.autoSave.value
    ensures ext.autoSave.None? ==> c.autoSave == DefaultAutoSave
    ensures ext.enableEncryption.Some? ==> c.enableEncryption == ext.enableEncryption.value
    ensures ext.enableEncryption.None? ==> c.enableEncryption == DefaultEnableEncryption
    ensures ext.encryptionSalt.Some? ==> c.encryptionSalt == ext.encryptionSalt.value
    ensures ext.encryptionSalt.None? ==> c.encryptionSalt == DefaultEncryptionSalt
    ensures ext.filename.Some? ==> c.filename == ext.filename.value
    ensures ext.filename.None? ==> c.filename == DefaultFilename
    ensures ext.baseDirectory.Some? ==> c.baseDirectory == ext.baseDirectory.value
    ensures ext.baseDirectory.None? ==> c.baseDirectory == DefaultBaseDirectory
    ensures ext.minutExpiryDefault.Some? ==> c.minutExpiryDefault == ext.minutExpiryDefault.value
    ensures ext.minutExpiryDefault.None? ==> c.minutExpiryDefault == DefaultMinutExpiryDefault
  {
    StorageConfig(
      OrDefault(ext.autoLoad, DefaultAutoLoad),
      OrDefault(ext.autoSave, DefaultAutoSave),
      OrDefault(ext.enableEncryption, DefaultEnableEncryption),
      OrDefault(ext.encryptionSalt, DefaultEncryptionSalt),
      OrDefault(ext.filename, DefaultFilename),
      OrDefault(ext.baseDirectory, DefaultBaseDirectory),
      OrDefault(ext.minutExpiryDefault, DefaultMinutExpiryDefault))
  }

  /** With nothing configured externally, every setting takes its documented default. */
  lemma AbsentSettingsGiveDefaults()
    ensures Resolve(NoSettings) == StorageConfig(true, true, false, ".localstorage", ".localstorage", "", 1)
  {
  }

  /** When every setting is supplied externally, the resolved configuration is exactly what was supplied. */
  lemma PresentSettingsWin(autoLoad: bool, autoSave: bool, enableEncryption: bool, encryptionSalt: string,
                           filename: string, baseDirectory: string, minutExpiryDefault: int)
    ensures Resolve(ExternalSettings(Some(autoLoad), Some(autoSave), Some(enableEncryption), Some(encryptionSalt),
                                     Some(filename), Some(baseDirectory), Some(minutExpiryDefault)))
         == StorageConfig(autoLoad, autoSave, enableEncryption, encryptionSalt, filename, baseDirectory, minutExpiryDefault)
  {
  }
}
