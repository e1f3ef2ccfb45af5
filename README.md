# Nexus inventory domain, modelled in Dafny

This project models the domain layer of the Nexus inventory system. The layer has four groups.

- **Value objects.** NIT (a company's tax id), Email, Phone, ProductCode and Quantity. Each one validates itself when it is built.
- **Entities.** Empresa is a company. Producto is a product owned by a company. Inventario holds one company's stock of one product, and stock can be added, removed or overwritten.
- **Repository contracts.** There is one repository per entity. Each is an in-memory store whose `save` inserts a row or replaces the existing one.
- **Use cases.** Create, get, list, update and delete for companies and products. For stock: create-or-update, get, add, remove, delete and the low-stock query.

Every domain exception becomes a value of `Exceptions.DomainError` carried in a `Result`; nothing is raised. Each `ValidationError` also records which rule rejected the input (`Violation`).

Each value object is a datatype plus a subset type of the same name that holds only the values its constructor accepts. `MakeX` plays the role of the constructor: it returns the value, or the error of the check the constructor evidently intends. For NIT, Email and ProductCode the check as written also accepts a text ending in one newline; `MakeXAsWritten` models that check, and "## Findings" lists the difference. The rest of the model, the use cases included, builds these values with the intended check.

An entity has three parts:
- a record datatype for its fields;
- pure functions for its reads and its state transitions;
- a class whose methods update the fields in place. Each method is proved equal to the matching transition.

`update_info` assigns the new values first and then runs `validate()`. When validation fails, the assignments stay in place, and the model's `Step` type records both the state left behind and how the call ended.

Repositories are classes over a `Tables.Table`: a map from key to row, plus the keys newest first. The persistence layer lists rows by descending creation time, and `Table` keeps that order.

Each use case has two parts:
- a specification function from the stores to an `Effect`, which is both the result and the store left behind;
- a class whose `Execute` makes the same repository and entity calls in the same order. It is proved to produce exactly that `Effect`.

Timestamps come in as a parameter `now` instead of being read from the clock.

## Model

| member | source | states |
|---|---|---|
| ValueObjects.MakeNit | domain/nexus_domain/value_objects/__init__.py:14-23 | Accepts exactly the texts of at least 5 characters that are all digits or '-'. Reports empty, then too short, then bad format. The accepted NIT keeps the text as its value. |
| ValueObjects.MakeNitAsWritten | domain/nexus_domain/value_objects/__init__.py:14-23 | The NIT check as written, with `re.match` and `$`. Whatever it accepts is at least 5 characters long and keeps the text. |
| ValueObjects.NitAsWrittenAcceptsNewline | domain/nexus_domain/value_objects/__init__.py:22 | "1234\n" passes the written check, while the intended check rejects it as bad format. |
| ValueObjects.NitAsWrittenDiffers | domain/nexus_domain/value_objects/__init__.py:22 | The written check accepts exactly the valid NITs, plus texts of at least 5 characters that are digits and '-' followed by one final newline. |
| ValueObjects.MakeEmail | domain/nexus_domain/value_objects/__init__.py:42-49 | Accepts exactly the texts matching the address pattern across the whole string. An empty text gives EmailEmpty and any other failure gives EmailFormat. |
| ValueObjects.MakeEmailAsWritten | domain/nexus_domain/value_objects/__init__.py:42-49 | The email check as written, with `re.match` and `$`. Whatever it accepts keeps its text. |
| ValueObjects.EmailAsWrittenAcceptsNewline | domain/nexus_domain/value_objects/__init__.py:47-49 | "a@b.co\n" passes the written check and fails the intended one. |
| ValueObjects.EmailAsWrittenDiffers | domain/nexus_domain/value_objects/__init__.py:47-49 | The written check accepts exactly the valid addresses, plus texts that end in one newline and match the pattern without it. |
| ValueObjects.EmailShape | domain/nexus_domain/value_objects/__init__.py:47-49 | A text matches the pattern if and only if it splits as local '@' host '.' tld. Each part must use its own character class, and the tld has at least 2 letters. |
| ValueObjects.Domain | domain/nexus_domain/value_objects/__init__.py:54-56 | `domain()` is everything after the only '@', which is host '.' tld. It contains no '@', and local part + "@" + domain gives back the address. |
| ValueObjects.MakePhone | domain/nexus_domain/value_objects/__init__.py:64-75 | Accepts exactly the texts that have 7 to 15 ASCII digits once spaces and dashes are removed. Reports empty first. A cleaned text with any character other than an ASCII digit, or with nothing left, gives not-digits. Only then is the length checked. The phone keeps the unstripped text. |
| ValueObjects.PhoneIgnoresSeparator | domain/nexus_domain/value_objects/__init__.py:69-75 | Inserting a space or a dash anywhere never changes whether a phone is accepted. |
| ValueObjects.SeparatorDropped | domain/nexus_domain/value_objects/__init__.py:69 | The cleaned characters are the same with or without one inserted space or dash. |
| ValueObjects.MakeProductCode | domain/nexus_domain/value_objects/__init__.py:86-95 | Accepts exactly the texts of at least 3 letters, digits, '_' or '-'. Reports empty, then too short, then bad format. The code keeps its original casing. |
| ValueObjects.MakeProductCodeAsWritten | domain/nexus_domain/value_objects/__init__.py:86-95 | The code check as written, with `re.match` and `$`. Whatever it accepts is at least 3 characters long and keeps the text. |
| ValueObjects.CodeAsWrittenAcceptsNewline | domain/nexus_domain/value_objects/__init__.py:94 | "AB\n" passes the written check, while the intended check rejects it as bad format. |
| ValueObjects.CodeAsWrittenDiffers | domain/nexus_domain/value_objects/__init__.py:90-95 | The written check accepts exactly the valid codes, plus texts of at least 3 characters that end in one newline and are letters, digits, '_' or '-' before it. |
| ValueObjects.CodeKey | domain/nexus_domain/value_objects/__init__.py:105-106 | The hash key has the code's length and is already upper case. |
| ValueObjects.SameCode | domain/nexus_domain/value_objects/__init__.py:100-103 | Equality of two codes compares their upper-cased texts; `SameCodeCharwise` states it position by position and ties it to `CodeKey`. |
| ValueObjects.SameCodeCharwise | domain/nexus_domain/value_objects/__init__.py:100-106 | Two codes are equal if and only if they have the same length and agree position by position after upper-casing. Equal codes have equal hash keys. |
| ValueObjects.CaseVariantsAreSameCode | domain/nexus_domain/value_objects/__init__.py:100-103 | "prod-001" and "PROD-001" are both valid and equal as codes, yet they are different values. |
| ValueObjects.MakeQuantity | domain/nexus_domain/value_objects/__init__.py:114-116 | Rejects a value, with NegativeQuantity, exactly when it is negative. Otherwise it keeps the value. |
| ValueObjects.Add | domain/nexus_domain/value_objects/__init__.py:124-126 | The sum of the two quantities. |
| ValueObjects.IsSufficient | domain/nexus_domain/value_objects/__init__.py:135-137 | The quantity is at least the required one; `Subtract` succeeds exactly when it holds. |
| ValueObjects.Subtract | domain/nexus_domain/value_objects/__init__.py:128-137 | Succeeds exactly when the quantity is sufficient, and then returns the difference. Otherwise it gives NegativeDifference. |
| ValueObjects.SubtractUndoesAdd | domain/nexus_domain/value_objects/__init__.py:124-133 | Subtracting b from a + b gives back a. |
| ValueObjects.AddUndoesSubtract | domain/nexus_domain/value_objects/__init__.py:124-137 | When a is sufficient for b, adding b back to a - b gives a. |
| EmpresaEntity.Validated | domain/nexus_domain/entities/empresa.py:34-44 | Succeeds exactly when the stripped name has at least 3 characters and the stripped address at least 5. The error names the first rule that failed. On success both texts are stored stripped and nothing else changes. |
| EmpresaEntity.ValidatedFixedPoints | domain/nexus_domain/entities/empresa.py:34-44 | Validation leaves a record unchanged exactly when the record is already normalized. |
| EmpresaEntity.ValidatedIdempotent | domain/nexus_domain/entities/empresa.py:42-44 | Validating a validated company changes nothing. |
| EmpresaEntity.InfoUpdated | domain/nexus_domain/entities/empresa.py:46-64 | Each given argument replaces its field and updated_at becomes now. Validation passes exactly when the new name and address are long enough; then they are stored stripped. A failure leaves the raw values assigned and reports the name error if the new name is too short, otherwise the address error. The NIT, created_at and creator never change. |
| EmpresaEntity.EmptyUpdateTouchesOnly | domain/nexus_domain/entities/empresa.py:54-64 | An update with no arguments on a normalized company only moves updated_at. |
| EmpresaEntity.FailedUpdateIsNotRolledBack | domain/nexus_domain/entities/empresa.py:54-64 | An update with the name " ab " fails with EmpresaNombreTooShort and leaves the name " ab " in place. |
| EmpresaEntity.CanBeDeleted | domain/nexus_domain/entities/empresa.py:66-71 | Every company may be deleted. |
| EmpresaEntity.SameEmpresa | domain/nexus_domain/entities/empresa.py:88-91 | Two companies are equal exactly when their NITs are equal; `UpdateKeepsIdentity` shows an update keeps it. |
| EmpresaEntity.UpdateKeepsIdentity | domain/nexus_domain/entities/empresa.py:88-91 | An update gives a company equal to the original, since equality is by NIT. |
| EmpresaEntity.Empresa.Init | domain/nexus_domain/entities/empresa.py:22-28 | The fields hold exactly the arguments. |
| EmpresaEntity.Empresa.New | domain/nexus_domain/entities/empresa.py:30-44 | Construction gives a fresh company holding the validated record, or gives validation's error. |
| EmpresaEntity.Empresa.Validate | domain/nexus_domain/entities/empresa.py:34-44 | In place: commits the result of `Validated`, or leaves the fields untouched and reports the error. |
| EmpresaEntity.Empresa.UpdateInfo | domain/nexus_domain/entities/empresa.py:46-64 | In place: the new fields and the outcome are exactly those of `InfoUpdated`. |
| ProductoEntity.Validated | domain/nexus_domain/entities/producto.py:34-43 | Succeeds exactly when the stripped name has at least 2 characters. The name is stored stripped, and so is the description when present. Nothing else changes. |
| ProductoEntity.ValidatedFixedPoints | domain/nexus_domain/entities/producto.py:34-43 | Validation leaves a record unchanged exactly when the record is already normalized. |
| ProductoEntity.ValidatedIdempotent | domain/nexus_domain/entities/producto.py:39-43 | Validating a validated product changes nothing. |
| ProductoEntity.HasCaracteristicas | domain/nexus_domain/entities/producto.py:72-74 | A description is present and not empty; `ValidatedHasCaracteristicas` shows that after validation this means the given description held a non-whitespace character. |
| ProductoEntity.ValidatedHasCaracteristicas | domain/nexus_domain/entities/producto.py:72-74 | After validation, `has_caracteristicas()` holds exactly when the given description held a non-whitespace character. |
| ProductoEntity.InfoUpdated | domain/nexus_domain/entities/producto.py:45-63 | Each given argument replaces its field and updated_at becomes now. Validation passes exactly when the new name is long enough; then the name and description are stored stripped. A failure leaves the raw values and reports the name error. The code, created_at and creator never change. |
| ProductoEntity.EmpresaChanged | domain/nexus_domain/entities/producto.py:65-70 | Only the company NIT and updated_at change, and there is no re-validation. |
| ProductoEntity.ChangeEmpresaIsUpdate | domain/nexus_domain/entities/producto.py:45-70 | On a normalized product, `change_empresa(n)` and `update_info(empresa_nit=n)` give the same product and both succeed. |
| ProductoEntity.SameProducto | domain/nexus_domain/entities/producto.py:91-94 | Two products are equal exactly when their codes are equal as codes, which ignores letter case; no other field matters. |
| ProductoEntity.UpdateKeepsIdentity | domain/nexus_domain/entities/producto.py:91-94 | `update_info` and `change_empresa` keep a product equal to the original, since equality is by code and ignores case. |
| ProductoEntity.Producto.Init | domain/nexus_domain/entities/producto.py:22-28 | The fields hold exactly the arguments. |
| ProductoEntity.Producto.New | domain/nexus_domain/entities/producto.py:30-43 | Construction gives a fresh product holding the validated record, or gives validation's error. |
| ProductoEntity.Producto.Validate | domain/nexus_domain/entities/producto.py:34-43 | In place: commits the result of `Validated`, or leaves the fields untouched and reports the error. |
| ProductoEntity.Producto.UpdateInfo | domain/nexus_domain/entities/producto.py:45-63 | In place: the new fields and the outcome are exactly those of `InfoUpdated`. |
| ProductoEntity.Producto.ChangeEmpresa | domain/nexus_domain/entities/producto.py:65-70 | In place: the new fields are exactly those of `EmpresaChanged`. |
| InventarioEntity.IsLowStock | domain/nexus_domain/entities/inventario.py:67-71 | Strictly fewer units than the threshold, 10 by default. |
| InventarioEntity.IsOutOfStock | domain/nexus_domain/entities/inventario.py:73-77 | No units at all. |
| InventarioEntity.CanFulfillOrder | domain/nexus_domain/entities/inventario.py:79-83 | The stock is sufficient for the required quantity; `RemovedStock` succeeds exactly when it holds. |
| InventarioEntity.StatusName | domain/nexus_domain/entities/inventario.py:85-97 | The four status strings; `StatusNamesDistinct` shows no two statuses share one. |
| InventarioEntity.GetStockStatus | domain/nexus_domain/entities/inventario.py:85-97 | AGOTADO exactly at 0, BAJO exactly for 1 to 9, MEDIO exactly for 10 to 49, ALTO exactly from 50 on. |
| InventarioEntity.StatusMonotone | domain/nexus_domain/entities/inventario.py:85-97 | More stock never gives a lower status. |
| InventarioEntity.StatusNamesDistinct | domain/nexus_domain/entities/inventario.py:90-97 | Two statuses give the same string exactly when they are the same status. |
| InventarioEntity.OutOfStockIsLowStock | domain/nexus_domain/entities/inventario.py:67-77 | An out-of-stock record is low on stock at the default threshold of 10. |
| InventarioEntity.LowStockIsAgotadoOrBajo | domain/nexus_domain/entities/inventario.py:67-97 | At the default threshold, low stock holds exactly for the statuses AGOTADO and BAJO. |
| InventarioEntity.AddedStock | domain/nexus_domain/entities/inventario.py:38-43 | The quantity grows by q, updated_at becomes now, and nothing else changes. |
| InventarioEntity.RemovedStock | domain/nexus_domain/entities/inventario.py:45-58 | Succeeds exactly when the stock can fulfil q; the quantity then drops by q and updated_at becomes now. Otherwise it gives InsufficientStockError with the available and required amounts. |
| InventarioEntity.UpdatedStock | domain/nexus_domain/entities/inventario.py:60-65 | The quantity becomes q whatever it was, updated_at becomes now, and nothing else changes. |
| InventarioEntity.RemoveUndoesAdd | domain/nexus_domain/entities/inventario.py:38-58 | Removing q right after adding q succeeds and restores the record; only updated_at moves. |
| InventarioEntity.UpdateStockOverwrites | domain/nexus_domain/entities/inventario.py:60-65 | Two updates in a row are the same as the last one alone. |
| InventarioEntity.SameInventario | domain/nexus_domain/entities/inventario.py:114-117 | Two records are equal exactly when their company NITs are equal and their product codes are equal as codes (ignoring letter case). |
| InventarioEntity.MovementsKeepIdentity | domain/nexus_domain/entities/inventario.py:114-117 | Adding, removing or overwriting stock keeps the record equal to the original, since equality is by company and product. |
| InventarioEntity.Inventario.constructor | domain/nexus_domain/entities/inventario.py:22-36 | The fields hold exactly the arguments; `validate()` has nothing to check. |
| InventarioEntity.Inventario.AddStock | domain/nexus_domain/entities/inventario.py:38-43 | In place: the new fields are exactly those of `AddedStock`. |
| InventarioEntity.Inventario.RemoveStock | domain/nexus_domain/entities/inventario.py:45-58 | In place: the new fields are exactly those of `RemovedStock`. When the stock is insufficient it fails before touching any field. |
| InventarioEntity.Inventario.UpdateStock | domain/nexus_domain/entities/inventario.py:60-65 | In place: the new fields are exactly those of `UpdatedStock`. |
| EmpresaRepo.Saved | backend/apps/empresas/repositories.py:18-36 | The company is stored under its NIT: inserted, or replacing the row with that NIT. The store stays keyed, and it grows by one row exactly when the NIT was new. |
| EmpresaRepo.Deleted | backend/apps/empresas/repositories.py:56-63 | Reports whether a row was there, and removes exactly that row. |
| EmpresaRepo.ListAll | backend/apps/empresas/repositories.py:46-49 | Exactly min(`limit`, n - `offset`) of the n stored companies, none when `offset` is past the end: the stored ones newest first, from position `offset` on, each one stored. |
| EmpresaRepo.NextPageFollows | backend/apps/empresas/repositories.py:48 | A page of `a` followed by the next page of `b` lists exactly the page of `a + b`, so paging through the listing neither skips nor repeats a row. |
| EmpresaRepo.NameMatches | backend/apps/empresas/repositories.py:51-54 | Exactly the stored companies whose name contains the text, ignoring case, newest first. |
| EmpresaRepo.StoredNitIsValid | domain/nexus_domain/value_objects/__init__.py:14-23 | A key under which a company is stored is a valid NIT, and `NIT(key)` gives back the stored NIT. |
| EmpresaRepo.EmpresaRepository.Save | domain/nexus_domain/interfaces/__init__.py:16 | The new table is `Saved` of the old one, and the method returns the stored record. |
| EmpresaRepo.EmpresaRepository.FindByNit | backend/apps/empresas/repositories.py:38-44 | A fresh entity holding the stored row exactly when the NIT is stored. |
| EmpresaRepo.EmpresaRepository.FindAll | backend/apps/empresas/repositories.py:46-49 | On the current table: exactly min(`limit`, n - `offset`) companies, all of them stored. |
| EmpresaRepo.EmpresaRepository.SearchByNombre | backend/apps/empresas/repositories.py:51-54 | On the current table: exactly the stored companies whose name contains the text, ignoring case, newest first. |
| EmpresaRepo.EmpresaRepository.Delete | backend/apps/empresas/repositories.py:56-63 | The result and the new table are exactly those of `Deleted`. |
| ProductoRepo.Saved | backend/apps/productos/repositories.py:19-43 | The product is stored under its exact code text: inserted or replaced. The store stays keyed, and it grows by one row exactly when the code was new. |
| ProductoRepo.Deleted | backend/apps/productos/repositories.py:72-79 | Reports whether a row was there, and removes exactly that row. |
| ProductoRepo.ListAll | backend/apps/productos/repositories.py:53-56 | Exactly min(`limit`, n - `offset`) of the n stored products, none when `offset` is past the end: the stored ones newest first, from position `offset` on, each one stored. |
| ProductoRepo.NextPageFollows | backend/apps/productos/repositories.py:55 | A page of `a` followed by the next page of `b` lists exactly the page of `a + b`, so paging through the listing neither skips nor repeats a row. |
| ProductoRepo.OfEmpresa | backend/apps/productos/repositories.py:58-63 | Exactly the stored products of the company with that NIT, newest first. |
| ProductoRepo.NameMatches | backend/apps/productos/repositories.py:65-70 | Exactly the stored products whose name contains the text, ignoring case, newest first. |
| ProductoRepo.StoredCodeIsValid | domain/nexus_domain/value_objects/__init__.py:86-95 | A key under which a product is stored is a valid code, and `ProductCode(key)` gives back the stored code. |
| ProductoRepo.ProductoRepository.Save | domain/nexus_domain/interfaces/__init__.py:53 | The new table is `Saved` of the old one, and the method returns the stored record. |
| ProductoRepo.ProductoRepository.FindByCodigo | backend/apps/productos/repositories.py:45-51 | A fresh entity holding the stored row exactly when the code text is stored. |
| ProductoRepo.ProductoRepository.FindAll | backend/apps/productos/repositories.py:53-56 | On the current table: exactly min(`limit`, n - `offset`) products, all of them stored. |
| ProductoRepo.ProductoRepository.FindByEmpresa | backend/apps/productos/repositories.py:58-63 | On the current table: exactly the stored products of the company with that NIT, newest first. |
| ProductoRepo.ProductoRepository.SearchByNombre | backend/apps/productos/repositories.py:65-70 | On the current table: exactly the stored products whose name contains the text, ignoring case, newest first. |
| ProductoRepo.ProductoRepository.Delete | backend/apps/productos/repositories.py:72-79 | The result and the new table are exactly those of `Deleted`. |
| InventarioRepo.FindPair | backend/apps/inventario/repositories.py:64-73 | Nothing exactly when no record has that company and product. Otherwise the one record that has the pair. |
| InventarioRepo.SavedById | backend/apps/inventario/repositories.py:27-30 | Saving under a stored id: that record takes the entity's pair, quantity and update time, and keeps its creation time. No other record changes. |
| InventarioRepo.SavedByPair | backend/apps/inventario/repositories.py:41-48 | Saving onto the record that already has the pair: it takes the entity's quantity and update time. No other record changes. |
| InventarioRepo.SavedNew | backend/apps/inventario/repositories.py:41-46 | Saving a pair that has no record yet: the entity is stored under the next id, and the next id grows by one. |
| InventarioRepo.Saved | backend/apps/inventario/repositories.py:17-54 | Saves by stored id first, then onto the record holding the pair, otherwise as a new record. The store stays keyed with one record per pair, and afterwards a lookup of the pair finds the returned record. |
| InventarioRepo.SaveAgainIsNoOp | backend/apps/inventario/repositories.py:17-54 | Saving the record a save returned changes nothing more. |
| InventarioRepo.SaveOwnRow | backend/apps/inventario/repositories.py:27-30 | Saving a loaded record is allowed when its id, pair and creation time are kept, and it replaces that record in place. |
| InventarioRepo.Deleted | backend/apps/inventario/repositories.py:94-101 | Reports whether the id was stored, and removes exactly that record. |
| InventarioRepo.ListAll | backend/apps/inventario/repositories.py:75-78 | Exactly min(`limit`, n - `offset`) of the n stored records, none when `offset` is past the end: the stored ones newest first, from position `offset` on, each one stored. |
| InventarioRepo.NextPageFollows | backend/apps/inventario/repositories.py:77 | A page of `a` followed by the next page of `b` lists exactly the page of `a + b`, so paging through the listing neither skips nor repeats a row. |
| InventarioRepo.OfEmpresa | backend/apps/inventario/repositories.py:80-85 | Exactly the stored records of the company with that NIT, newest first. |
| InventarioRepo.LowStock | backend/apps/inventario/repositories.py:87-92 | Exactly the stored records with at most `threshold` units, newest first. |
| InventarioRepo.LowStockIsStrictBelowNext | backend/apps/inventario/repositories.py:87-92 | The query agrees with the entity's `is_low_stock(threshold + 1)`, not with `is_low_stock(threshold)`. |
| InventarioRepo.LowStockDisagreesAtDefault | domain/nexus_domain/entities/inventario.py:67-71 | A record with exactly 10 units is returned by the query at 10, but it is not low on stock at 10. |
| InventarioRepo.InventarioRepository.Save | domain/nexus_domain/interfaces/__init__.py:95 | The returned record and the new store are exactly those of `Saved`. |
| InventarioRepo.InventarioRepository.FindById | backend/apps/inventario/repositories.py:56-62 | A fresh entity holding the stored record exactly when the id is stored. |
| InventarioRepo.InventarioRepository.FindByEmpresaAndProducto | backend/apps/inventario/repositories.py:64-73 | A fresh entity holding the pair's record exactly when `FindPair` finds one. |
| InventarioRepo.InventarioRepository.FindAll | backend/apps/inventario/repositories.py:75-78 | On the current store: exactly min(`limit`, n - `offset`) records, all of them stored. |
| InventarioRepo.InventarioRepository.FindByEmpresa | backend/apps/inventario/repositories.py:80-85 | On the current store: exactly the stored records of the company with that NIT, newest first. |
| InventarioRepo.InventarioRepository.FindLowStock | backend/apps/inventario/repositories.py:87-92 | On the current store: exactly the stored records with at most `threshold` units, newest first. |
| InventarioRepo.InventarioRepository.Delete | backend/apps/inventario/repositories.py:94-101 | The result and the new store are exactly those of `Deleted`. |
| EmpresaUseCases.CreateEmpresa | domain/nexus_domain/use_cases/empresa_use_cases.py:23-48 | A duplicate NIT first, then the NIT, phone and entity rules, in that order. It succeeds exactly when all of them pass, and then saves one new company with stripped texts, timestamps now and the creator. Past the NIT and phone checks the error is the name one for a short name, otherwise the address one. On any error nothing is saved. |
| EmpresaUseCases.GetEmpresa | domain/nexus_domain/use_cases/empresa_use_cases.py:57-64 | The stored company exactly when the NIT is stored, otherwise EntityNotFoundError. |
| EmpresaUseCases.ListEmpresas | domain/nexus_domain/use_cases/empresa_use_cases.py:73-79 | A non-empty search uses the name search, and anything else uses one page. |
| EmpresaUseCases.ListedAreStored | domain/nexus_domain/use_cases/empresa_use_cases.py:73-79 | Only stored companies are listed. Without a search, a page holds exactly min(`limit`, n - `offset`) of the n stored companies, and never more than `limit`. A search gives exactly the matching companies. |
| EmpresaUseCases.PhoneArgument | domain/nexus_domain/use_cases/empresa_use_cases.py:98 | An absent or empty telefono means no change. Any other is parsed, and the parse fails exactly when it is not a valid phone. |
| EmpresaUseCases.UpdateEmpresa | domain/nexus_domain/use_cases/empresa_use_cases.py:88-102 | Unknown NIT, then phone parse, then `update_info` on the stored company. It saves exactly the updated company when validation passes and nothing otherwise. |
| EmpresaUseCases.UpdateKeepsNit | domain/nexus_domain/use_cases/empresa_use_cases.py:93-102 | A successful update keeps the NIT and the set of stored NITs. |
| EmpresaUseCases.EmptyPhoneIsNoChange | domain/nexus_domain/use_cases/empresa_use_cases.py:98 | An update with telefono "" is the same as one without telefono. |
| EmpresaUseCases.UpdateOfNothing | domain/nexus_domain/use_cases/empresa_use_cases.py:88-102 | An update without arguments on a normalized company returns it with only updated_at moved. |
| EmpresaUseCases.DeleteEmpresa | domain/nexus_domain/use_cases/empresa_use_cases.py:111-129 | Unknown NIT, then a company that `can_be_deleted` refuses, then the repository's delete. On any error nothing is removed. |
| EmpresaUseCases.DeleteStoredSucceeds | domain/nexus_domain/use_cases/empresa_use_cases.py:111-129 | Deleting a stored company always returns true and removes only that company. |
| EmpresaUseCases.CreateThenGet | domain/nexus_domain/use_cases/empresa_use_cases.py:23-64 | After a successful create, get returns the created company and a second create with that NIT is a duplicate that changes nothing. |
| EmpresaUseCases.CreateEmpresaUseCase.Execute | domain/nexus_domain/use_cases/empresa_use_cases.py:23-48 | The result and the new table are exactly those of `CreateEmpresa`. |
| EmpresaUseCases.GetEmpresaUseCase.Execute | domain/nexus_domain/use_cases/empresa_use_cases.py:57-64 | A fresh entity holding what `GetEmpresa` gives, or its error. |
| EmpresaUseCases.ListEmpresasUseCase.Execute | domain/nexus_domain/use_cases/empresa_use_cases.py:73-79 | Exactly `ListEmpresas`. |
| EmpresaUseCases.UpdateEmpresaUseCase.Execute | domain/nexus_domain/use_cases/empresa_use_cases.py:88-102 | The result and the new table are exactly those of `UpdateEmpresa`. |
| EmpresaUseCases.DeleteEmpresaUseCase.Execute | domain/nexus_domain/use_cases/empresa_use_cases.py:111-129 | The result and the new table are exactly those of `DeleteEmpresa`. |
| ProductoUseCases.CreateProducto | domain/nexus_domain/use_cases/producto_use_cases.py:25-54 | A duplicate code, then a missing company, then the code and entity rules. It succeeds exactly when all hold, and then saves one new product carrying the company's NIT, the stripped texts, timestamps now and the creator. Past the first three checks a short name gives the name error. On any error nothing is saved. |
| ProductoUseCases.DuplicateBeforeMissingEmpresa | domain/nexus_domain/use_cases/producto_use_cases.py:35-40 | A taken code is reported even when the company is missing as well. |
| ProductoUseCases.CaseVariantIsNotDuplicate | domain/nexus_domain/use_cases/producto_use_cases.py:35-36 | A code that differs from a stored one only in letter case is created. The new product equals the stored one as an entity, yet both are stored under different keys. |
| ProductoUseCases.GetProducto | domain/nexus_domain/use_cases/producto_use_cases.py:63-70 | The stored product exactly when the code text is stored, otherwise EntityNotFoundError. |
| ProductoUseCases.ListProductos | domain/nexus_domain/use_cases/producto_use_cases.py:79-89 | A non-empty company filter first, then a non-empty search, otherwise one page. |
| ProductoUseCases.EmpresaFilterWins | domain/nexus_domain/use_cases/producto_use_cases.py:83-84 | With a company filter the search is ignored, and the listing is exactly that company's products. |
| ProductoUseCases.UpdateProducto | domain/nexus_domain/use_cases/producto_use_cases.py:98-110 | Unknown code first, then `update_info(nombre, caracteristicas)` on the stored product. It saves exactly the updated product when validation passes and nothing otherwise. |
| ProductoUseCases.UpdateKeepsCodeAndEmpresa | domain/nexus_domain/use_cases/producto_use_cases.py:98-110 | A successful update keeps the code and the company, and it replaces the product in place. |
| ProductoUseCases.DeleteProducto | domain/nexus_domain/use_cases/producto_use_cases.py:119-127 | Succeeds exactly when the code is stored, returns true and removes only that product. Otherwise EntityNotFoundError, and nothing changes. |
| ProductoUseCases.CreateProductoUseCase.Execute | domain/nexus_domain/use_cases/producto_use_cases.py:25-54 | The result and the new product table are exactly those of `CreateProducto`. The company store is only read. |
| ProductoUseCases.GetProductoUseCase.Execute | domain/nexus_domain/use_cases/producto_use_cases.py:63-70 | A fresh entity holding what `GetProducto` gives, or its error. |
| ProductoUseCases.ListProductosUseCase.Execute | domain/nexus_domain/use_cases/producto_use_cases.py:79-89 | Exactly `ListProductos`. |
| ProductoUseCases.UpdateProductoUseCase.Execute | domain/nexus_domain/use_cases/producto_use_cases.py:98-110 | The result and the new table are exactly those of `UpdateProducto`. |
| ProductoUseCases.DeleteProductoUseCase.Execute | domain/nexus_domain/use_cases/producto_use_cases.py:119-127 | The result and the new table are exactly those of `DeleteProducto`. |
| InventarioUseCases.CreateOrUpdate | domain/nexus_domain/use_cases/inventario_use_cases.py:27-65 | A missing company first, then a missing product, then a negative quantity. It succeeds exactly when none of them applies. An existing record for the pair has its quantity overwritten in place; otherwise one new record is added under the next id. Afterwards the pair has exactly the returned record. |
| InventarioUseCases.EmpresaCheckedFirst | domain/nexus_domain/use_cases/inventario_use_cases.py:38-43 | A missing company is reported before a missing product. |
| InventarioUseCases.SecondCallOverwrites | domain/nexus_domain/use_cases/inventario_use_cases.py:50-52 | A second call for the same pair sets the quantity to the new amount, which is not added to the old one. It keeps the id, the creation time and the set of records. |
| InventarioUseCases.OneRecordPerPair | domain/nexus_domain/use_cases/inventario_use_cases.py:45-65 | After a successful call, the only record with the pair is the one returned. |
| InventarioUseCases.GetInventario | domain/nexus_domain/use_cases/inventario_use_cases.py:74-83 | A non-empty NIT gives exactly that company's records, newest first. Otherwise the first min(100, n) of the n records, newest first. |
| InventarioUseCases.SmallInventoryListedWhole | domain/nexus_domain/use_cases/inventario_use_cases.py:83 | With no filter and at most 100 records, every record is listed. |
| InventarioUseCases.AddStock | domain/nexus_domain/use_cases/inventario_use_cases.py:92-106 | Unknown id, then a negative amount, otherwise success. On success the record grows by the amount through `add_stock` and is replaced in place. On any error nothing changes. |
| InventarioUseCases.RemoveStock | domain/nexus_domain/use_cases/inventario_use_cases.py:115-129 | Unknown id, then a negative amount, then InsufficientStockError with both amounts. It succeeds exactly when 0 <= amount <= stock, and then the record shrinks by the amount in place. On any error nothing changes. |
| InventarioUseCases.RemoveAfterAddRestores | domain/nexus_domain/use_cases/inventario_use_cases.py:92-129 | Adding and then removing the same amount gives back the original quantity under the same id. |
| InventarioUseCases.RemoveBounds | domain/nexus_domain/use_cases/inventario_use_cases.py:115-129 | Removing one more than the stock changes nothing. Removing all of it succeeds and leaves the record out of stock. |
| InventarioUseCases.DeleteInventario | domain/nexus_domain/use_cases/inventario_use_cases.py:138-144 | Succeeds exactly when the id is stored, returns true and removes only that record. Otherwise EntityNotFoundError, and nothing changes. |
| InventarioUseCases.GetLowStockItems | domain/nexus_domain/use_cases/inventario_use_cases.py:153-159 | Exactly the stored records with at most `threshold` units, newest first. |
| InventarioUseCases.OutOfStockIsListed | domain/nexus_domain/use_cases/inventario_use_cases.py:153-159 | For any threshold that is not negative, every out-of-stock record is listed. |
| InventarioUseCases.CreateOrUpdateInventarioUseCase.Execute | domain/nexus_domain/use_cases/inventario_use_cases.py:27-65 | The result and the new store are exactly those of `CreateOrUpdate`. |
| InventarioUseCases.GetInventarioUseCase.Execute | domain/nexus_domain/use_cases/inventario_use_cases.py:74-83 | Exactly `GetInventario`. |
| InventarioUseCases.AddStockUseCase.Execute | domain/nexus_domain/use_cases/inventario_use_cases.py:92-106 | The result and the new store are exactly those of `AddStock`. |
| InventarioUseCases.RemoveStockUseCase.Execute | domain/nexus_domain/use_cases/inventario_use_cases.py:115-129 | The result and the new store are exactly those of `RemoveStock`. |
| InventarioUseCases.DeleteInventarioUseCase.Execute | domain/nexus_domain/use_cases/inventario_use_cases.py:138-144 | The result and the new store are exactly those of `DeleteInventario`. |
| InventarioUseCases.GetLowStockItemsUseCase.Execute | domain/nexus_domain/use_cases/inventario_use_cases.py:153-159 | Exactly `GetLowStockItems`. |

Two places where the code is inconsistent with itself are modelled as written and stated as lemmas:

- **Low stock.** The entity's `is_low_stock(t)` means strictly below t. The repository's `find_low_stock(t)` returns records with at most t units. See `InventarioRepo.LowStockIsStrictBelowNext` and `InventarioRepo.LowStockDisagreesAtDefault`.
- **Product codes.** ProductCode equality ignores letter case, but the repositories key products by the exact code text, and the duplicate check in product creation compares exact texts. See `ProductoUseCases.CaseVariantIsNotDuplicate`.

## Left out

- Character classes: `\d`, `str.isdigit()`, `str.upper()` and the `icontains` lookup are modelled on ASCII only. Python also accepts other Unicode digits and folds non-ASCII letters. `str.strip()` uses Python's exact whitespace set.
- Clock: `datetime.now()` is the parameter `now`. The database's automatic creation and update timestamps (`auto_now_add`, `auto_now`) are not modelled. A saved record keeps the times the entity carries.
- Not modelled: `to_dict()`, `__str__()`, error message texts, and the mapping between entities and ORM rows.
- EmpresaUseCases.CreateEmpresa: the saved and returned company has `createdById == Some(userId)`. In the source, save looks the user up (backend/apps/empresas/repositories.py:28-36) and stores no creator when the id is unknown or not numeric. The entity it returns is rebuilt from the row, so its creator is then none. User accounts are not part of this model.
- ProductoUseCases.CreateProducto: the same holds for the product's creator (backend/apps/productos/repositories.py:35-40).
- EmpresaUseCases.CreateEmpresa also builds the NIT with the intended check, so it rejects a NIT text ending in one newline that the source's `re.match(..., '$')` accepts. `ValueObjects.MakeNitAsWritten` and the first row of "## Findings" describe the difference.
- EmpresaUseCases.CreateEmpresaUseCase.Execute: proved equal to `CreateEmpresa`, so it shares both differences above.
- ProductoUseCases.CreateProducto also builds the code with the intended check, so it rejects a code text ending in one newline that the source accepts. See `ValueObjects.MakeProductCodeAsWritten` and the second row of "## Findings".
- ProductoUseCases.CreateProductoUseCase.Execute: proved equal to `CreateProducto`, so it shares both differences above.
- Not modelled: foreign-key cascades. Deleting a company or a product does not delete its products or stock records here, because each repository is its own store.
- Not modelled: the `ValueError` the persistence layer raises when a saved product's company is missing (backend/apps/productos/repositories.py:30-33), or a stock record's company or product is missing (backend/apps/inventario/repositories.py:20-24). Product creation and stock create-or-update check these before they save. Product update, add stock and remove stock do not check them. With independent stores and no cascades, such a save here succeeds even when the referenced company or product is gone; the source would raise there.
- InventarioRepo.InventarioRepository.Save: requires `SaveAllowed`, so it excludes a save that moves a stored record onto the company and product of another record. The database refuses that save with an `IntegrityError` from `unique_together ('empresa', 'producto')` (backend/apps/inventario/orm_models.py:19). The model does not produce that error. No use case makes such a save.
- Not modelled: concurrency and transactions. Each use case runs alone.
- Listings return stored records (`EmpresaRec`, `ProductoRec`, `InventarioRec`) rather than fresh entity objects; the single-entity lookups do return fresh objects.
- `limit`, `offset` and stock ids are natural numbers. A negative id is simply never found, and Python's negative slicing is not modelled.
- Inventario ids are `nat` values handed out from a counter, where the source uses database-generated integers. The string id in the mapper and the `'None'` text check are not modelled.
- Stored keys are kept valid: every stored company is stored under its own valid NIT text, and every product under its own valid code text. So `NIT(...)` and `ProductCode(...)` on a stored key never fail. The database does not check this when rows are written outside the domain.
- UnauthorizedOperationError belongs to the taxonomy, but no domain operation raises it.
- The `exists` methods of the repository classes are predicates without contracts of their own. The use cases' specifications state what they answer.

## Findings

| source | as written | input that shows it | evidently intended | confidence | as-written member | corrected member |
|---|---|---|---|---|---|---|
| domain/nexus_domain/value_objects/__init__.py:22 | `re.match` with `^...$`, where `$` also matches before one final newline | NIT "1234\n" (four digits, then a newline) passes the length and format checks | Every character of the NIT is a digit or '-' | not executed | ValueObjects.NitAsWrittenAcceptsNewline | ValueObjects.MakeNit |
| domain/nexus_domain/value_objects/__init__.py:94 | `re.match` with `^...$`, where `$` also matches before one final newline | ProductCode "AB\n" (two letters, then a newline) passes the length and format checks | Every character of the code is a letter, digit, '_' or '-' | not executed | ValueObjects.CodeAsWrittenAcceptsNewline | ValueObjects.MakeProductCode |
| domain/nexus_domain/value_objects/__init__.py:48 | `re.match` with `^...$`, where `$` also matches before one final newline | Email "a@b.co\n" is accepted | The whole text matches the address pattern | not executed | ValueObjects.EmailAsWrittenAcceptsNewline | ValueObjects.MakeEmail |
