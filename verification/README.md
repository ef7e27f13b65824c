# Commerce administration core, modelled in Dafny

This project models the core of a desktop administration application. The
application manages commerces (`comercios`), the locales (`locales`) that
belong to them, the files attached to a commerce (`archivos_comercios`), the
login screen and the user administration screen. The PostgreSQL tables and
the attachment folder are held in memory:

- the tables are a `Tablas` value inside the `BaseDatos` class;
- the folder is a map from path to file size inside the `Carpeta` class;
- every SQL statement or file call the source makes is one method of those
  classes.

The view-models are classes whose fields are the observable properties of
the source, and their commands are methods. Each method is proved against
functions that say what the command computes. Lemmas then state the
properties of those functions.

The model has these modules, one file each:

| module | file | models |
|---|---|---|
| `Wrappers` | wrappers.dfy | `Option` and `Result` |
| `Text` | text.dfy | ASCII case mapping, blank test, substring search, decimal rendering of integers |
| `Sorting` | sorting.dfy | stable ordering by a key (`ORDER BY`, `OrderBy`), filtering, counting, first occurrences (`Distinct`) |
| `ArchivoModel` | archivo_model.dfy | `ArchivoComercioModel`: size label bucket, icon, tooltip |
| `TiposMime` | mime.dfy | `ObtenerTipoMime` of `ArchivoService` |
| `Almacen` | storage.dfy | the tables, the key sequences, the folder, and the statements on them |
| `ServicioArchivos` | archivo_service.dfy | `ArchivoService`: listing, upload, soft delete, path lookup, bulk delete |
| `AdminComercios` | comercios.dfy | `ManageComerciosViewModel` |
| `Login` | login.dfy | `LoginViewModel` |
| `AdminUsuarios` | usuarios.dfy | `ManageUsersViewModel` |

Exceptions become explicit fault parameters. Each names the statement that
throws, so every error path of the source has a postcondition. Examples:
`FallaBorrado` for the delete, `Option<nat>` for the step of the creation
transaction, `FallaCarga` for the load. The clock, `Guid.NewGuid`, the
values of `Random.Next(0, 10)`, the rows a query returns and the users the
demo loader produces are all parameters.

Where the documented behaviour and the code differ, the model follows the
code:

- `ActualizarComercio` does not report a missing row. The `UPDATE` simply
  reaches no row.
- A failed upload `INSERT` leaves the copied file in the folder.
- The attachment listing returns the rows it read before an error, not an
  empty list.
- A repeated attachment delete returns `true`, because its `UPDATE` has no
  `activo` filter.
- The user count of a commerce counts (user, permission) join rows, not
  distinct users.
- The `.xlsx` MIME type gets the document icon, because "officedocument"
  contains "doc" and that rule comes before the spreadsheet rule.
- A save in edit mode without a selected commerce creates a commerce but
  reports "updated".
- A country named "Todos" appears twice in the country list.
- Null notes of a commerce are written back as the empty text.
- The login credential check uses the user number as typed, without
  trimming it. The session's office code is upper-cased but not trimmed.
- Closing the user form does not reset the edit mode.

## Model

| member | source | states |
|---|---|---|
| ArchivoModel.ElegirTamano | Models/Admin/ArchivoComercioModel.cs:74-83 | no size exactly for a null size; otherwise the bytes are kept, a unit other than B has a scale not above them, and a unit other than GB has them below 1024 times its scale |
| ArchivoModel.ElegirTamanoMonotono | Models/Admin/ArchivoComercioModel.cs:76-83 | the buckets are ordered: a larger size never gets a smaller unit |
| ArchivoModel.TamanoFormateado | Models/Admin/ArchivoComercioModel.cs:74-83 | a null size gives "N/A"; a size below 1024 gives its exact decimal count followed by " B"; a size in [1024, 1024²) gives the scaled quantity followed by " KB", one in [1024², 1024³) " MB", and a larger one " GB" |
| ArchivoModel.TamanoEnBytesInyectivo | Models/Admin/ArchivoComercioModel.cs:76-77 | two different byte counts below 1024 never get the same label |
| ArchivoModel.IconoArchivo | Models/Admin/ArchivoComercioModel.cs:94-105 | the clip for a null or empty type; otherwise the icon of the first rule, in table order, that matches the lower-cased type |
| ArchivoModel.PrimeraReglaEsLaPrimera | Models/Admin/ArchivoComercioModel.cs:98-105 | the rule table gives the clip exactly when no rule matches; otherwise it gives the icon of a matching rule that no earlier rule precedes |
| ArchivoModel.ReglasDesplegadas | Models/Admin/ArchivoComercioModel.cs:98-103 | each rule of the table matches exactly when one of the source's `Contains` tests for that icon succeeds |
| ArchivoModel.IconoIgnoraMayusculas | Models/Admin/ArchivoComercioModel.cs:96 | the icon does not depend on the case of the type |
| ArchivoModel.InformacionCompleta | Models/Admin/ArchivoComercioModel.cs:117-122 | the tooltip's definition: five lines with the original name, the size label of `TamanoFormateado`, the type (empty when null), the date label and the uploader; its properties are the two lemmas below |
| ArchivoModel.InformacionCompletaBordes | Models/Admin/ArchivoComercioModel.cs:117-122 | for every attachment, the tooltip starts with the original name and a line break, and ends with "Por: " and the uploader, or "Desconocido" when there is none |
| ArchivoModel.InformacionCompletaTamano | Models/Admin/ArchivoComercioModel.cs:119 | the tooltip's second line is "Tamaño: " and the size label, so it reads "N/A" for a null size and the exact byte count for a size below 1024 |
| TiposMime.ObtenerTipoMime | Services/ArchivoService.cs:196-214 | the lookup's definition: the lower-cased extension in the twelve-entry table, the generic type otherwise; its properties are the lemmas below |
| TiposMime.TipoMimeEsLaTabla | Services/ArchivoService.cs:196-214 | for every extension, the type is the one the switch names for the lower-cased extension, and the generic type when the switch has no case for it; the cases are exactly the twelve recognised extensions, and none of their types is the generic one |
| TiposMime.TipoMimeIgnoraMayusculas | Services/ArchivoService.cs:198 | the mapping gives the same type for an extension and its lower-case form |
| TiposMime.TipoMimeGenerico | Services/ArchivoService.cs:198-213 | the type is not "application/octet-stream" exactly when the lower-cased extension is one of the twelve |
| TiposMime.TipoMimeJpeg | Services/ArchivoService.cs:202-203 | "image/jpeg" is given to ".jpg" and ".jpeg", in any case, and to no other extension |
| TiposMime.XlsxTieneIconoDeDocumento | Services/ArchivoService.cs:209 | the type recorded for ".xlsx" is shown with the document icon, not the spreadsheet icon |
| Almacen.ComerciosPorNombre | ViewModels/Admin/ManageComerciosViewModel.cs:211-216 | the commerce query's definition: every commerce row, ordered by name; `VistaCorrecta` states its properties through the loaded list |
| Almacen.LocalesDe | ViewModels/Admin/ManageComerciosViewModel.cs:247-254 | the locale query's definition: the commerce's locale rows, ordered by name; its properties are in `LocalesDeCorrecto` |
| Almacen.LocalesDeCorrecto | ViewModels/Admin/ManageComerciosViewModel.cs:243-285 | the locale query returns rows sorted by name: exactly the locale rows of the commerce |
| Almacen.ContarUsuariosDelComercio | ViewModels/Admin/ManageComerciosViewModel.cs:287-300 | the user count's definition: the size of the three-table join over the permission rows; its meaning is in `ContarJoinCuentaPermisos` |
| Almacen.ContarJoin | ViewModels/Admin/ManageComerciosViewModel.cs:289-293 | the join's definition: each permission row adds one match per active user row with its user key times one per locale row of the commerce with its locale key |
| Almacen.ContarJoinCuentaPermisos | ViewModels/Admin/ManageComerciosViewModel.cs:287-300 | under unique keys the join count is the number of permission rows whose user is active and whose locale belongs to the commerce |
| Almacen.UnUsuarioContadoDosVeces | ViewModels/Admin/ManageComerciosViewModel.cs:289-293 | one active user with permissions on two locales of a commerce is counted twice, in consistent tables |
| Almacen.UsuariosActivosConUnico | ViewModels/Admin/ManageComerciosViewModel.cs:291-292 | with unique user keys, a permission row joins with one active user row when its user is active, and with none otherwise |
| Almacen.LocalesDelComercioConUnico | ViewModels/Admin/ManageComerciosViewModel.cs:292-293 | with unique locale keys, a permission row joins with one locale row of the commerce when its locale belongs to it, and with none otherwise |
| Almacen.BaseDatos.InsertarComercio | ViewModels/Admin/ManageComerciosViewModel.cs:426-444 | appends the row under the next key, which no row had; both stamps take the server time; the tables stay consistent |
| Almacen.BaseDatos.InsertarLocal | ViewModels/Admin/ManageComerciosViewModel.cs:731-761 | succeeds exactly when the owner commerce exists, appending the row under a fresh key; otherwise nothing changes; the key is consumed either way |
| Almacen.BaseDatos.Restaurar | ViewModels/Admin/ManageComerciosViewModel.cs:454-457 | a rollback returns the tables to the snapshot and keeps the key sequences |
| Almacen.BaseDatos.ActualizarComercio | ViewModels/Admin/ManageComerciosViewModel.cs:468-493 | rewrites the columns and stamp of the rows with the key, keeps every other row and table, and returns the number of rows reached |
| Almacen.BaseDatos.ActualizarEstadoComercio | ViewModels/Admin/ManageComerciosViewModel.cs:550-559 | sets only the flag and stamp of the rows with the key, and returns the number of rows reached |
| Almacen.FilasComercio | ViewModels/Admin/ManageComerciosViewModel.cs:493 | the `UPDATE` reaches a row exactly when a commerce with the key exists |
| Almacen.MismasClavesComercio | ViewModels/Admin/ManageComerciosViewModel.cs:468-493 | rewriting commerce rows while keeping their keys, in order, keeps the tables consistent |
| Almacen.BaseDatos.BorrarComercio | ViewModels/Admin/ManageComerciosViewModel.cs:514-518 | the tables after the delete with the schema's cascade; they stay consistent |
| Almacen.Cascada | ViewModels/Admin/ManageComerciosViewModel.cs:514-518 | the delete's definition with the locale foreign key's cascade: the commerce row, its locales and the permissions on those locales go; its properties are the lemmas below |
| Almacen.CascadaIntegra | ViewModels/Admin/ManageComerciosViewModel.cs:514-518 | the cascade leaves no row of the commerce and none of its locales; keeps every other commerce and locale, the users and the attachment rows; keeps the keys unique |
| Almacen.PermisoSobrevive | ViewModels/Admin/ManageComerciosViewModel.cs:514 | a permission the cascade keeps still points at an existing locale and user |
| Almacen.CascadaLocales | ViewModels/Admin/ManageComerciosViewModel.cs:514 | after the cascade every locale still belongs to an existing commerce |
| Almacen.CascadaPermisos | ViewModels/Admin/ManageComerciosViewModel.cs:514 | after the cascade every permission still names an existing locale and an existing user |
| Almacen.BaseDatos.InsertarArchivo | Services/ArchivoService.cs:108-125 | appends the row, stamped with the server time, under the next key and returns that key; the row is active by the assumed column default |
| Almacen.BaseDatos.DesactivarArchivo | Services/ArchivoService.cs:157-161 | clears the flag of every row with the id, whatever its state, and returns the number of such rows |
| Almacen.FilasArchivo | Services/ArchivoService.cs:161 | the `UPDATE` reaches a row exactly when a row with the id exists |
| Almacen.DesactivarValido | Services/ArchivoService.cs:157-161 | soft deletion keeps the tables consistent and every attachment key below the next one |
| Almacen.AgregarLocalIntegra | ViewModels/Admin/ManageComerciosViewModel.cs:731-761 | a locale with a fresh key and an existing owner keeps the tables consistent |
| Almacen.Carpeta.Copiar | Services/ArchivoService.cs:98 | the destination holds a file of the source's size; nothing else changes |
| Almacen.Carpeta.Borrar | Services/ArchivoService.cs:153 | the path is gone; nothing else changes |
| ServicioArchivos.NombreFichero | Services/ArchivoService.cs:92 | the file name is a suffix of the path without a separator, and the path has a separator just before it when it is shorter |
| ServicioArchivos.UltimoPunto | Services/ArchivoService.cs:93 | no position exactly when the name has no '.'; otherwise the position of a '.' with none after it |
| ServicioArchivos.ExtensionDeForma | Services/ArchivoService.cs:93 | an extension is empty, or a '.' followed by at least one character and no further '.' |
| ServicioArchivos.ExtensionSinSeparador | Services/ArchivoService.cs:93 | the extension of a path contains no separator, and is empty or a '.' followed by at least one character and no further '.' |
| ServicioArchivos.Sello | Services/ArchivoService.cs:94 | the time stamp is fifteen characters: eight digits, '_', six digits |
| ServicioArchivos.NombreUnico | Services/ArchivoService.cs:94 | the stored name's definition: the commerce id, '_', the stamp, '_', the first eight GUID digits and the extension; its properties are the lemmas below |
| ServicioArchivos.NombreUnicoPartes | Services/ArchivoService.cs:94 | the stored name splits into the rendered commerce id, '_', the stamp, '_', eight lower-case hex digits of the GUID, and the extension |
| ServicioArchivos.NombreUnicoInyectivo | Services/ArchivoService.cs:94 | two uploads get the same name only with the same commerce id, stamp, first eight GUID digits and extension |
| ServicioArchivos.NombreUnicoEmpiezaPorId | Services/ArchivoService.cs:94 | the stored name starts with the rendered commerce id and '_' |
| ServicioArchivos.RutaDestinoConserva | Services/ArchivoService.cs:93-95 | the file name of the stored path is the generated name, and it keeps the extension of the source |
| ServicioArchivos.FilaSubidaRuta | Services/ArchivoService.cs:95-121 | the inserted row's path lies in the storage folder, its file name is the stored name, and its extension is the source's |
| ServicioArchivos.FilaSubidaNombres | Services/ArchivoService.cs:92-119 | the stored name starts with the id and '_'; the original name is the last component of the source path; the type is the generic one exactly when the extension is not one of the twelve |
| ServicioArchivos.Listado | Services/ArchivoService.cs:41-46 | the listing query's definition: the active rows of the commerce, newest first; its properties are in `ListadoCorrecto` |
| ServicioArchivos.ListadoCorrecto | Services/ArchivoService.cs:41-46 | the listing is ordered by upload time, newest first, and holds exactly the active rows of the commerce, each as often as in the table |
| ServicioArchivos.ListadoMiembros | Services/ArchivoService.cs:41-46 | a row is listed exactly when it is an active row of the commerce |
| ServicioArchivos.Leidas | Services/ArchivoService.cs:52-73 | a reader that fails keeps at most the rows there are; one that does not fail keeps them all |
| ServicioArchivos.RutaDe | Services/ArchivoService.cs:145-148 | no path exactly when no row has the id; otherwise the path of a row with the id |
| ServicioArchivos.RutaActiva | Services/ArchivoService.cs:180-184 | no path exactly when no active row has the id; otherwise the path of an active row with the id |
| ServicioArchivos.RutaDeDesactivar | Services/ArchivoService.cs:145-161 | soft deletion changes no path that a later lookup reads |
| ServicioArchivos.EfectoBorrar | Services/ArchivoService.cs:137-168 | the single delete's definition: for each fault point, the result, the tables and the folder; its properties are the lemmas below |
| ServicioArchivos.BorrarSinFalla | Services/ArchivoService.cs:145-161 | without a fault, the result is `true` exactly when a row with the id exists; afterwards the rows with the id are inactive and every other row and table is kept |
| ServicioArchivos.BorrarSinFallaFichero | Services/ArchivoService.cs:150-154 | under unique ids, a delete without a fault removes the file of the row, and only that file |
| ServicioArchivos.RutaDeUnica | Services/ArchivoService.cs:145-148 | under unique ids the path read for an id is the path of its row |
| ServicioArchivos.BorrarToleraFaltante | Services/ArchivoService.cs:151-161 | a missing physical file is tolerated: the folder is unchanged and the result still says whether the row exists |
| ServicioArchivos.FallaFicheroSinFichero | Services/ArchivoService.cs:151-154 | the file deletion, and its failure, happen only for a non-empty path that exists |
| ServicioArchivos.BorrarRepetido | Services/ArchivoService.cs:157-161 | deleting the same id twice: the second delete changes nothing and returns what the first did, so an existing row gives `true` twice |
| ServicioArchivos.DesactivarIdempotente | Services/ArchivoService.cs:157 | soft-deleting twice is soft-deleting once |
| ServicioArchivos.FilasArchivoDesactivar | Services/ArchivoService.cs:157-161 | after a soft delete the `UPDATE` still reaches a row exactly when it did before |
| ServicioArchivos.BorrarConFalla | Services/ArchivoService.cs:163-167 | a fault gives `false` and leaves the rows unchanged; only a failed `UPDATE` comes after the file was deleted |
| ServicioArchivos.BorrarDesde | Services/ArchivoService.cs:219-241 | the bulk delete's definition: the single deletes from the `k`-th id on, in order, counting those that return `true`; its properties are the lemmas below |
| ServicioArchivos.BorrarDesdePaso | Services/ArchivoService.cs:226-232 | the bulk delete is one delete, counted when it returns `true`, followed by the rest |
| ServicioArchivos.BorrarDesdeAcotado | Services/ArchivoService.cs:224-234 | the count never exceeds the number of ids |
| ServicioArchivos.BorrarDesdeSoloDesactiva | Services/ArchivoService.cs:226-232 | the deletes only clear `activo` flags: keys, owners, other columns and other tables are kept |
| ServicioArchivos.BorrarDesdeApaga | Services/ArchivoService.cs:226-232 | without faults every row whose id is among the ids ends up inactive |
| ServicioArchivos.BorrarDesdeCompleto | Services/ArchivoService.cs:226-232 | without faults, when every id has a row, every delete is counted |
| ServicioArchivos.BorrarTodoCuenta | Services/ArchivoService.cs:219-234 | without faults the count is the number of listed attachments |
| ServicioArchivos.BorrarTodoApaga | Services/ArchivoService.cs:219-234 | without faults no active attachment of the commerce is left |
| ServicioArchivos.BorrarTodoSinFallas | Services/ArchivoService.cs:219-234 | both of the above together |
| ServicioArchivos.ArchivoService.ObtenerArchivosPorComercio | Services/ArchivoService.cs:32-76 | the rows read before the reader fails, in listing order: the whole listing when nothing fails, and always newest first and only active rows of the commerce |
| ServicioArchivos.ArchivoService.SubirArchivo | Services/ArchivoService.cs:81-132 | a missing source fails with nothing changed; a failed copy changes nothing; otherwise the file is copied under the generated name; a failed insert leaves the tables unchanged but keeps the copy; a success appends the row with the copy's size and MIME type and returns its key; it succeeds exactly for an existing source without a fault, and only then draws an attachment key; the other key sequences are kept |
| ServicioArchivos.ArchivoService.EliminarArchivo | Services/ArchivoService.cs:137-168 | the result, tables and folder are those of the delete specification for the given fault |
| ServicioArchivos.ArchivoService.MarcarInactivo | Services/ArchivoService.cs:156-161 | a failing `UPDATE` gives `false` and changes nothing; otherwise the rows with the id become inactive and the result says whether one existed |
| ServicioArchivos.ArchivoService.ObtenerRutaArchivo | Services/ArchivoService.cs:173-191 | the path of an active row with the id, none when there is no such row or the query fails; nothing changes |
| ServicioArchivos.ArchivoService.EliminarArchivosDeComercio | Services/ArchivoService.cs:219-241 | the count, tables and folder are those of deleting the listed attachments one by one; the count is at most the number of rows listed |
| ServicioArchivos.ArchivoService.BorrarLote | Services/ArchivoService.cs:224-232 | the counting loop gives the count, tables and folder of the bulk delete specification |
| AdminComercios.VistaCorrecta | ViewModels/Admin/ManageComerciosViewModel.cs:162-241 | the loaded list is ordered by name; it holds one entry per commerce row, each with exactly the locales of its commerce and the join count of its users |
| AdminComercios.TotalComercios | ViewModels/Admin/ManageComerciosViewModel.cs:143 | the counter's definition: the number of loaded commerces |
| AdminComercios.ComerciosActivos | ViewModels/Admin/ManageComerciosViewModel.cs:144 | the counter's definition: the number of active loaded commerces |
| AdminComercios.ComerciosInactivos | ViewModels/Admin/ManageComerciosViewModel.cs:145 | the counter's definition: the number of inactive loaded commerces |
| AdminComercios.TotalLocales | ViewModels/Admin/ManageComerciosViewModel.cs:146 | the counter's definition: the sum of the locale counts of the loaded commerces |
| AdminComercios.ContadoresCuadran | ViewModels/Admin/ManageComerciosViewModel.cs:143-145 | active plus inactive commerces is the total, and neither exceeds it |
| AdminComercios.PasaFiltros | ViewModels/Admin/ManageComerciosViewModel.cs:596-616 | the filter's definition: the lower-cased search in the name, a locale name or a locale code (or a blank search); the country, unless empty or "Todos"; the state, unless empty or "Todos" |
| AdminComercios.Filtrados | ViewModels/Admin/ManageComerciosViewModel.cs:591-624 | the shown list's definition: the commerces that pass the filters, ordered by name; its properties are in `FiltradosCorrecto` |
| AdminComercios.FiltradosCorrecto | ViewModels/Admin/ManageComerciosViewModel.cs:590-623 | the filtered list is ordered by name and holds exactly the commerces that pass the search, country and state filters, each as often as loaded |
| AdminComercios.SinFiltros | ViewModels/Admin/ManageComerciosViewModel.cs:803-816 | with no search and the country and state at "Todos" or empty, the filtered list is the whole list by name |
| AdminComercios.PaisesDisponibles | ViewModels/Admin/ManageComerciosViewModel.cs:788-801 | the country list's definition: "Todos", then the distinct countries ordered, without the empty one; its properties are in `PaisesDisponiblesCorrecto` |
| AdminComercios.PaisesDisponiblesCorrecto | ViewModels/Admin/ManageComerciosViewModel.cs:788-800 | the list starts with "Todos"; the rest is ascending, without repetition, and holds exactly the non-empty countries of the loaded commerces |
| AdminComercios.Prefijo | ViewModels/Admin/ManageComerciosViewModel.cs:707-712 | the prefix always has three characters; `PrefijoCorrecto` states which |
| AdminComercios.PrefijoCorrecto | ViewModels/Admin/ManageComerciosViewModel.cs:707-712 | the prefix is the first letters of the name, at most three, upper-cased, then 'X' up to three characters; a name without letters gives "XXX" |
| AdminComercios.SiguienteTirada | ViewModels/Admin/ManageComerciosViewModel.cs:716-720 | while fewer than four different values have been drawn, a draw is left, and it adds its value unless it was drawn before |
| AdminComercios.PrimerasCuatro | ViewModels/Admin/ManageComerciosViewModel.cs:716-720 | when the loop stops, the set holds the first four different values drawn, all below ten |
| AdminComercios.CodigoLocal | ViewModels/Admin/ManageComerciosViewModel.cs:705-725 | the code's definition: the prefix, then the first four different draws as digits; its shape is in `CodigoLocalForma` |
| AdminComercios.CodigoLocalForma | ViewModels/Admin/ManageComerciosViewModel.cs:705-724 | a code has seven characters: the prefix, then four pairwise different digits, each a value that was drawn |
| AdminComercios.FormularioIdaYVuelta | ViewModels/Admin/ManageComerciosViewModel.cs:667-681 | loading a commerce into the form and writing the form back gives the same columns, except that null notes become empty text |
| AdminComercios.CreadoPaso | ViewModels/Admin/ManageComerciosViewModel.cs:447-450 | inserting the next form locale extends a partial creation by one row; the new commerce exists throughout |
| AdminComercios.CreadoCorrecto | ViewModels/Admin/ManageComerciosViewModel.cs:417-452 | after a committed creation the new commerce exists, and its locales are exactly the new rows, in form order |
| AdminComercios.DobleCambioEnMemoria | ViewModels/Admin/ManageComerciosViewModel.cs:549-562 | toggling twice in memory restores the list |
| AdminComercios.DobleCambioEnTabla | ViewModels/Admin/ManageComerciosViewModel.cs:549-559 | toggling twice in the table restores every flag; only the stamps of the toggled rows move |
| AdminComercios.ConEstadoConservaTotales | ViewModels/Admin/ManageComerciosViewModel.cs:143-146 | toggling changes neither the number of commerces nor the locale total |
| AdminComercios.LocalesInsertados | ViewModels/Admin/ManageComerciosViewModel.cs:446-450 | the number of locale inserts run before the fault: none when the commerce insert throws, the ones before the failing insert, and every locale when the fault is at the commit or there is none |
| AdminComercios.SecuenciasTras | ViewModels/Admin/ManageComerciosViewModel.cs:417-459 | the key sequences after a save: an update draws no key; a creation draws the commerce key unless its first step throws and one locale key per locale inserted, committed or not |
| AdminComercios.Edicion | ViewModels/Admin/ManageComerciosViewModel.cs:383-390 | the update path is taken exactly in edit mode with a selection, on the selected key |
| AdminComercios.Guardado | ViewModels/Admin/ManageComerciosViewModel.cs:383-390 | an update keeps the locales and the number of commerces; a creation appends the new commerce row |
| AdminComercios.ManageComerciosViewModel.constructor | ViewModels/Admin/ManageComerciosViewModel.cs:31-156 | nothing loaded, an empty form, both filters at "Todos", no selection, panels closed |
| AdminComercios.Recargadas | ViewModels/Admin/ManageComerciosViewModel.cs:162-205 | the outcome of a load, shared by the commands that reload: a failed query keeps the loaded list, shown list and countries; a failure at the k-th commerce keeps the first k loaded entries and the old shown list and countries; a complete load gives the loaded list, the whole list by name and the country list |
| AdminComercios.ManageComerciosViewModel.CargarDatosDesdeBaseDatos | ViewModels/Admin/ManageComerciosViewModel.cs:162-205 | a failed query changes no list; a failure at the k-th commerce keeps the first k entries; a complete load gives the loaded list, the whole list by name and the country list |
| AdminComercios.ManageComerciosViewModel.InicializarFiltros | ViewModels/Admin/ManageComerciosViewModel.cs:803-816 | the country list, and the whole list by name |
| AdminComercios.ManageComerciosViewModel.CargarPaisesDisponibles | ViewModels/Admin/ManageComerciosViewModel.cs:788-801 | the country list specification |
| AdminComercios.ManageComerciosViewModel.AplicarFiltros | ViewModels/Admin/ManageComerciosViewModel.cs:590-624 | the shown list is the filtered list: ordered by name, exactly the commerces that pass the filters |
| AdminComercios.ManageComerciosViewModel.LimpiarFormulario | ViewModels/Admin/ManageComerciosViewModel.cs:653-665 | the empty form and no form locales |
| AdminComercios.ManageComerciosViewModel.CargarDatosEnFormulario | ViewModels/Admin/ManageComerciosViewModel.cs:667-703 | the form takes the commerce's columns and its locales as entries |
| AdminComercios.ManageComerciosViewModel.MostrarFormularioComercio | ViewModels/Admin/ManageComerciosViewModel.cs:306-316 | an empty form in creation mode, panel shown |
| AdminComercios.ManageComerciosViewModel.EditarComercio | ViewModels/Admin/ManageComerciosViewModel.cs:318-329 | the commerce is selected and loaded into the form in edit mode |
| AdminComercios.ManageComerciosViewModel.CerrarPanelDerecho | ViewModels/Admin/ManageComerciosViewModel.cs:343-351 | the panel is hidden, the selection dropped and the form cleared; the edit flag is kept |
| AdminComercios.ManageComerciosViewModel.GenerarCodigoLocal | ViewModels/Admin/ManageComerciosViewModel.cs:705-725 | the rejection loop over the draws gives the code specification |
| AdminComercios.ManageComerciosViewModel.AgregarLocal | ViewModels/Admin/ManageComerciosViewModel.cs:630-641 | appends one entry, named after its position, with a generated code |
| AdminComercios.ManageComerciosViewModel.EliminarLocal | ViewModels/Admin/ManageComerciosViewModel.cs:643-647 | removes the entry at the position and keeps the others in order; a position past the end removes nothing |
| AdminComercios.ManageComerciosViewModel.CrearNuevoComercio | ViewModels/Admin/ManageComerciosViewModel.cs:417-459 | commits exactly when no step fails, and then the tables are the creation of the commerce with its locales; otherwise the tables are unchanged; the rollback does not give back the keys: the commerce key is drawn unless the first step throws, and one locale key per locale inserted before the fault |
| AdminComercios.ManageComerciosViewModel.InsertarLocalesForm | ViewModels/Admin/ManageComerciosViewModel.cs:446-450 | the loop completes exactly when no locale insert fails, and then every form locale is inserted in order; the locale sequence advances by the number of inserts run |
| AdminComercios.ManageComerciosViewModel.ActualizarComercio | ViewModels/Admin/ManageComerciosViewModel.cs:461-496 | nothing without a selection; otherwise only the selected row is rewritten with the form columns, and the locales are untouched; a failure changes nothing |
| AdminComercios.ManageComerciosViewModel.CambiarEstadoComercio | ViewModels/Admin/ManageComerciosViewModel.cs:541-584 | writes the negated flag to the table, and only then to every held entry of the commerce; a failure changes neither and reports the error |
| AdminComercios.ManageComerciosViewModel.EliminarComercio | ViewModels/Admin/ManageComerciosViewModel.cs:498-539 | a connection failure changes nothing but the message; otherwise the attachments are deleted first, whatever their outcome; a failing `DELETE` then keeps the rows, lists and countries; a success removes the commerce and its locales by the cascade, reloads the loaded list, shown list and countries as the load says for each load fault, and reports the deletion |
| AdminComercios.ManageComerciosViewModel.BorrarYRecargar | ViewModels/Admin/ManageComerciosViewModel.cs:514-524 | the cascade delete; then the loaded list, shown list and countries are those of a load from the new tables for the given load fault, and the message reports the deletion |
| AdminComercios.ManageComerciosViewModel.Persistir | ViewModels/Admin/ManageComerciosViewModel.cs:383-390 | the update or the creation, committing as the fault parameters say; the key sequences move as `SecuenciasTras` says, and the attachment sequence is kept |
| AdminComercios.ManageComerciosViewModel.GuardarComercio | ViewModels/Admin/ManageComerciosViewModel.cs:357-415 | a blank name, then a blank e-mail, stops with its message and changes no table, key sequence, list, country, selection, form or panel; otherwise the write commits as the faults say, and the key sequences move as `SecuenciasTras` says; a failure reports the error and changes no list, country, selection, form or panel; a success reloads the three lists as the load says, closes the panel and clears the form, and reports by the edit flag |
| AdminComercios.ManageComerciosViewModel.GuardarValidado | ViewModels/Admin/ManageComerciosViewModel.cs:379-414 | for a form that passes both checks: the write commits as the faults say and the key sequences move as `SecuenciasTras` says; a failure reports the error and keeps the lists, countries, selection, form and panel; a success reloads the three lists as the load says, closes the panel, clears the form and reports by the edit flag |
| AdminComercios.ManageComerciosViewModel.TrasEscribir | ViewModels/Admin/ManageComerciosViewModel.cs:392-414 | after an exception, the error message with every list, the selection, the form and the panel kept; after a commit, the reload as `Recargadas` says, the panel closed, the form cleared and the message by the edit flag |
| AdminComercios.ManageComerciosViewModel.RecargarYCerrar | ViewModels/Admin/ManageComerciosViewModel.cs:392-402 | the three lists are those of a load for the given fault; the panel and form are closed and cleared, the selection dropped, and the message chosen by the edit flag |
| Login.PuedeIniciar | ViewModels/LoginViewModel.cs:282-289 | the `CanLogin` gate's definition: not loading, not blocked, and user, password and office not blank; `GateDejaSoloLongitud` states what it leaves to validation |
| Login.Validacion | ViewModels/LoginViewModel.cs:291-318 | the first failing check in the order user, password, length of at least 8, office; none exactly when all pass |
| Login.GateDejaSoloLongitud | ViewModels/LoginViewModel.cs:282-289 | behind the `CanLogin` gate only the password length can still fail |
| Login.Autenticar | ViewModels/LoginViewModel.cs:133-141 | a credential is accepted exactly when it is one of the five pairs; system administration exactly for 0001 and 0002 |
| Login.CredencialPasaValidacion | ViewModels/LoginViewModel.cs:133-141 | every accepted credential passes validation once an office is given |
| Login.NombreDeUsuario | ViewModels/LoginViewModel.cs:422-436 | each known number gets its demo name from the table of the switch ("0001" is "Admin Principal", and so on); an unknown number is named "Usuario " and the number; a demo name does not start with 'U', so it never looks like a generated one |
| Login.NombreDeUsuarioInyectivo | ViewModels/LoginViewModel.cs:422-436 | different numbers never get the same name |
| Login.TipoUsuario | ViewModels/LoginViewModel.cs:395-405 | the switch collapses to two outcomes: "ADMIN" for 1001 and "EMPLEADO" for every other number |
| Login.Rol | ViewModels/LoginViewModel.cs:410-420 | the switch collapses to two outcomes: "Administrador" for 1001 and "Empleado" for every other number |
| Login.SesionDe | ViewModels/LoginViewModel.cs:159-182 | the session's number and name; the office code is exactly the typed code upper-cased, so it has the same length and no lower-case letter; the token is "token-" and the GUID; system administration exactly for the administrator credentials, with the system type and role; otherwise the type and role of `DeterminarTipoUsuario` and `DeterminarRol`, "ADMIN" exactly for 1001 |
| Login.SesionDeCredencial | ViewModels/LoginViewModel.cs:133-196 | for an accepted credential the administration panel opens exactly for 0001 and 0002; every other account gets "ADMIN"/"Administrador" exactly for 1001 and "EMPLEADO"/"Empleado" otherwise; the session's office code is already upper-cased |
| Login.DestinoDe | ViewModels/LoginViewModel.cs:184-196 | the administration panel exactly for a system administrator, carrying the session |
| Login.Fallo | ViewModels/LoginViewModel.cs:320-335 | one more failed attempt; from the fifth on the user is blocked for 15 minutes; before that the message gives the remaining attempts, 1 to 4; coherent fields stay coherent |
| Login.Exito | ViewModels/LoginViewModel.cs:146-147 | no failed attempts and not blocked |
| Login.FallosSeguidos | ViewModels/LoginViewModel.cs:320-335 | n failures in a row add n to the count and keep the fields coherent |
| Login.QuintoFalloBloquea | ViewModels/LoginViewModel.cs:320-335 | from a fresh screen the user is blocked exactly from the fifth failure on |
| Login.LoginViewModel.constructor | ViewModels/LoginViewModel.cs:67-76 | empty fields, no error, no attempts, not blocked |
| Login.LoginViewModel.MostrarMensajeError | ViewModels/LoginViewModel.cs:337-341 | shows the message |
| Login.LoginViewModel.ValidarCampos | ViewModels/LoginViewModel.cs:291-318 | shows the first failing check's message and reports whether all passed |
| Login.LoginViewModel.ManejarLoginFallido | ViewModels/LoginViewModel.cs:320-335 | the lockout fields and message follow the failure specification |
| Login.LoginViewModel.LoginAsync | ViewModels/LoginViewModel.cs:98-218 | a validation failure shows its message and touches no attempt; rejected credentials count a failure; accepted ones reset the lockout and navigate with the session, or show the error when navigation fails; the form is kept and loading ends off |
| Login.LoginViewModel.Autenticarse | ViewModels/LoginViewModel.cs:133-202 | the credential check, then the lockout reset and navigation, or one more failure |
| Login.LoginViewModel.LimpiarFormulario | ViewModels/LoginViewModel.cs:255-262 | the three fields are empty and the error hidden; the attempt count and blocked flag are unchanged |
| AdminUsuarios.ResumenDe | ViewModels/Admin/ManageUsersViewModel.cs:165-170 | the total is the list size; the active and floating counts lie between 0 and the total |
| AdminUsuarios.Quitar | ViewModels/Admin/ManageUsersViewModel.cs:303 | the first occurrence is removed and the rest kept in order; an absent element changes nothing; the multiset loses exactly that element |
| AdminUsuarios.Alternado | ViewModels/Admin/ManageUsersViewModel.cs:277 | the flag is negated and every other field kept |
| AdminUsuarios.ConAlternado | ViewModels/Admin/ManageUsersViewModel.cs:272-293 | the list with the first entry equal to the user flipped, or unchanged when the user is not listed |
| AdminUsuarios.AlternarResumen | ViewModels/Admin/ManageUsersViewModel.cs:272-293 | flipping a listed user keeps the total and floating counts and moves the active count by one in the flag's direction |
| AdminUsuarios.QuitarResumen | ViewModels/Admin/ManageUsersViewModel.cs:296-308 | removing a listed user lowers the total by one, and each other count by one exactly when that user had the flag |
| AdminUsuarios.ConLocal | ViewModels/Admin/ManageUsersViewModel.cs:353-363 | a locale is added only when no assigned locale has its id; afterwards one has |
| AdminUsuarios.ConLocalUnicos | ViewModels/Admin/ManageUsersViewModel.cs:353-363 | selection keeps the assigned ids unique |
| AdminUsuarios.QuitarUnicos | ViewModels/Admin/ManageUsersViewModel.cs:366-369 | removal keeps the assigned ids unique |
| AdminUsuarios.Validacion | ViewModels/Admin/ManageUsersViewModel.cs:198-217 | the first failing check in the order required fields, password when creating, at least one locale; none exactly when all pass |
| AdminUsuarios.FormDe | ViewModels/Admin/ManageUsersViewModel.cs:248-263 | the form takes the user's fields; a missing phone or note becomes empty; the password is blank |
| AdminUsuarios.ManageUsersViewModel.constructor | ViewModels/Admin/ManageUsersViewModel.cs:23-112 | no users, no assigned locales, the cleared form hidden, titled for creation, not in edit mode |
| AdminUsuarios.ManageUsersViewModel.MostrarMensajeTemporalmente | ViewModels/Admin/ManageUsersViewModel.cs:395-403 | shows the message |
| AdminUsuarios.ManageUsersViewModel.ActualizarEstadisticas | ViewModels/Admin/ManageUsersViewModel.cs:165-170 | the counters describe the list |
| AdminUsuarios.ManageUsersViewModel.CargarUsuarios | ViewModels/Admin/ManageUsersViewModel.cs:118-163 | the list is the loaded users and the counters describe it |
| AdminUsuarios.ManageUsersViewModel.LimpiarFormulario | ViewModels/Admin/ManageUsersViewModel.cs:375-393 | the cleared form (empty texts, not floating, active), no assigned locales, no search, no user in edition |
| AdminUsuarios.ManageUsersViewModel.MostrarFormularioCrear | ViewModels/Admin/ManageUsersViewModel.cs:177-183 | the cleared form with no assigned locales, no search text, no results and the results panel hidden, nobody being edited, shown with the creation title and edit mode off; the frame names only those fields, so the list, counters and message are kept |
| AdminUsuarios.ManageUsersViewModel.CerrarFormulario | ViewModels/Admin/ManageUsersViewModel.cs:186-190 | the form hidden and cleared with no assigned locales, no search text, no results, the results panel hidden and nobody being edited; the frame leaves out the title and edit mode, so they are kept, as are the list, counters and message |
| AdminUsuarios.ManageUsersViewModel.GuardarUsuario | ViewModels/Admin/ManageUsersViewModel.cs:193-235 | a failing check shows its message and keeps the list, form, assigned locales, panel, user being edited and search fields; otherwise the message for the mode, the reloaded list, and the form closed and cleared with the search fields emptied; the title and edit mode are outside the frame and so always kept |
| AdminUsuarios.ManageUsersViewModel.EditarUsuario | ViewModels/Admin/ManageUsersViewModel.cs:242-269 | the form takes the user's fields in edit mode |
| AdminUsuarios.ManageUsersViewModel.CambiarEstadoUsuario | ViewModels/Admin/ManageUsersViewModel.cs:272-293 | the user's flag is flipped in the list, the counters follow, and the message names the new state |
| AdminUsuarios.ManageUsersViewModel.EliminarUsuario | ViewModels/Admin/ManageUsersViewModel.cs:296-314 | the user is removed from the list; the total drops by one when it was listed; the counters follow |
| AdminUsuarios.ManageUsersViewModel.BuscarLocal | ViewModels/Admin/ManageUsersViewModel.cs:321-350 | a blank search hides the results and keeps them; otherwise the found locales become the results, shown exactly when there is one |
| AdminUsuarios.ManageUsersViewModel.SeleccionarLocal | ViewModels/Admin/ManageUsersViewModel.cs:353-363 | the locale is added unless its id is assigned; the ids stay unique; the search is cleared and hidden |
| AdminUsuarios.ManageUsersViewModel.QuitarLocalAsignado | ViewModels/Admin/ManageUsersViewModel.cs:366-369 | removes that entry only; the ids stay unique |

## Left out

- SQL text, connections, `async`/`await` and `Cargando`/`IsLoading` flags outside the login screen are not modelled. The tables are in-memory values, and the foreign-key cascade of a commerce delete is the schema's, stated as `Cascada`.
- Concurrency is not modelled. Each command runs to completion before the next one.
- `Task.Delay`, the later hiding of flashed messages, `OnPropertyChanged`, localized texts and navigation are not modelled. Messages are keys of a datatype. Navigation is the returned `Destino`, and a navigation exception is a parameter.
- Floating-point formatting is not modelled. The scaled KB, MB or GB quantity with two decimals is a parameter (`cifras`); the size chooses the unit that follows it. The upload date is a given text in the tooltip, and the commission is a `real` that is only copied.
- Culture-sensitive casing and letter classes are replaced by ASCII ones.
- `Text.IsWhiteSpace`, `Text.IsBlank`: only the ASCII blanks (space, tab, line feed, vertical tab, form feed, carriage return) count. .NET's `char.IsWhiteSpace` also counts U+0085, U+00A0, U+1680, U+2000–U+200A, U+2028, U+2029, U+202F, U+205F and U+3000, so a text made only of those is blank in the source but not here.
- `Login.Validacion`: a string is a sequence of characters, so the eight-character password minimum counts characters. The source counts UTF-16 code units, so a character outside the Basic Multilingual Plane counts twice there.
- `Sorting.StrLe`: every name ordering is ordinal, by character code. The source sorts commerces and locales by the database's collation (`ORDER BY nombre`) and the shown list and countries by .NET's culture-sensitive `OrderBy`. The orderings stated by `AdminComercios.VistaCorrecta`, `AdminComercios.FiltradosCorrecto`, `AdminComercios.PaisesDisponiblesCorrecto`, `Almacen.ComerciosPorNombre`, `Almacen.LocalesDe`, `Almacen.LocalesDeCorrecto` and `AdminComercios.Filtrados` are ordinal; which rows are listed does not depend on the ordering.
- `ServicioArchivos.Listado`, `ServicioArchivos.ListadoCorrecto`: attachments with the same upload time keep their table order, because the sort is stable. SQL's `ORDER BY fecha_subida DESC` leaves such ties in no particular order.
- `Almacen.Integra`, `Almacen.Cascada`: the attachment table's commerce column is not constrained, so `InsertarArchivo` accepts a commerce that does not exist and the commerce delete keeps attachment rows. If the schema has that foreign key without a cascade, the source's delete fails whenever the commerce still has an attachment row, inactive ones included.
- `ServicioArchivos.NombreFichero`, `ServicioArchivos.ExtensionDe`, `ServicioArchivos.RutaDestino`: paths follow Unix rules, with '/' as the only separator. Windows' backslash separator and drive letters are not modelled.
- `Directory.CreateDirectory` in the `ArchivoService` constructor is not modelled. The folder is a map, so a directory needs no creation.
- File contents are not modelled. A file is its size, and a copy keeps the size.
- The `ManageComerciosViewModel` and `ManageUsersViewModel` constructors start a load without waiting. Here that load is a separate call (`CargarDatosDesdeBaseDatos`, `CargarUsuarios`).
- `VerDetallesComercio` and `CargarArchivosComercio` only show a panel and list attachments for display; they are not part of this model.
- `LocalFormModel`, `UserModel` and `ComercioModel` are not part of this model. The defaults of a new form locale are assumed to be empty, unset, zero and off.
- `AdminUsuarios.Quitar`, `AdminUsuarios.ConAlternado`: the source removes or flips the object it received, by reference. The model uses the first entry equal to it by value, so two equal users in the list are not told apart.
- `AdminComercios.ConEstado`: the source flips the flag of the one object it received. The model flips every loaded entry with that commerce key. This matches the source while the shown list holds the very objects of the loaded list. After a load that fails part-way (`FallaEnComercio`), the shown list still holds the objects of the previous load. Toggling one of them in the source changes no loaded entry, so the counters stay put, while the model also flips the fresh loaded entry with that key and moves the counters.
- `AdminComercios.ManageComerciosViewModel.GenerarCodigoLocal`: the random draws are a finite sequence that must hold four different values. The source's loop ends only with probability one. The `HashSet` is taken to enumerate in insertion order; the proved properties (length, prefix, distinct digits) do not depend on that order.
- The demo users of `CargarUsuariosAsync` and the demo locales of `BuscarLocalAsync` are parameters. Those methods' catch blocks are not modelled, because nothing in their try blocks throws.
- `EditarUsuarioAsync` does not load the assigned locales of the user; the model keeps that.
- `RecuperarPasswordAsync`, `CambiarIdioma`, `GuardarDatosLocales`, `LimpiarDatosGuardados` and `CargarDatosGuardados` of the login screen are not modelled. Their bodies only show a message or are empty placeholders. The constructor that receives services is not modelled either.
- `Login.LoginViewModel.LoginAsync`: the lockout is not checked inside the command; only the `CanLogin` gate looks at it, as in the source. The token GUID is a parameter.
- `ServicioArchivos.ArchivoService.SubirArchivo`: the size is that of the copy in the folder map. The server assigns the key and upload time; both are parameters of the insert. The `INSERT` does not write `activo`, so the new row's flag is the column default, which no file of this model shows; the model takes it to be `true`. The same holds for `Almacen.BaseDatos.InsertarArchivo`.
- `ServicioArchivos.ArchivoService.ObtenerArchivosPorComercio`: a reader failure is modelled as a cut after some number of rows. A failure before the query is a cut at zero.
